# Font gallery, button and app shell of the Vite + TS + React + SCSS template

This project models the behavioural core of a small React single-page template.

- **The font gallery's stylesheet injection** (`injectFontLinks`). The gallery has a catalog of font definitions (`FONT_DEFS`). Some entries declare a Google Fonts family query segment. On the gallery's first mount in a process, those segments are packed greedily, in catalog order, into stylesheet URLs of at most 1800 characters. The exceptions are a URL that carries a single family too long on its own, and the bare base URL that the code flushes ahead of such a family when it comes first. One `<link>` per URL is appended to the document head. A process-wide flag (`fontsInjected`) makes every later mount do nothing.
- **How `Button` resolves its props:**
  - the class list, with `secondary` as the default variant;
  - `disabled`, taken from `disabled ?? busy`;
  - `aria-busy`;
  - the inline style, built from `width`, `height` and `style`, with numbers rendered as pixels.
- **The `App` shell's state.** Two independent pieces of state: whether the gallery is shown, and the font theme (`alt` or `classic`). Also modelled: the events that change them, the root classes and label derived from them, and mounting the gallery only while it is shown. This is composed with the injection state, so a whole run of user events can be reasoned about.

Modules, one per file:

- `Wrappers` (`wrappers.dfy`): `Option`.
- `LinkPacker` (`link_packer.dfy`), which contains:
  - the URL packing loop as written (`PackLoop`/`Pack`, and the imperative `PackUrls`);
  - an independent greedy reference (`Chunks`/`Greedy`) proved equal to it;
  - the properties of the emitted URLs;
  - a corrected packing (see Findings).
- `FontCatalog` (`font_catalog.dfy`): `FontDef`, the shipped catalog, and the selection of requested families.
- `FontInjector` (`font_injector.dfy`): the `fontsInjected` flag and the appended links as one explicit state value `Injector`. It holds the guarded one-shot injection and its idempotence.
- `Button` (`button.dfy`): props to attributes.
- `AppShell` (`app_shell.dfy`): shell state and events, plus runs of events with the injection composed in.

Modelling choices:

- Side effects are explicit state. The module-level flag and the document head become the value `Injector(injected, appended)`. Appending links becomes sequence concatenation.
- CSS-module class names are their own names, because the test configuration's `classNameStrategy` is `non-scoped`. The production build scopes them.
- JavaScript truthiness is modelled where the source relies on it: `0` and `""` are falsy, and any object is truthy.
- Numeric dimensions are natural numbers rendered in decimal.

## Model

| member | source | states |
|---|---|---|
| LinkPacker.PackLoop | src/components/FontGallery.tsx:110-121 | From any state of the loop, the URLs already flushed stay as a prefix of the result. When families remain, at least one more URL is emitted. Every URL starts with the stylesheet base prefix. |
| LinkPacker.Pack | src/components/FontGallery.tsx:109-121 | The packing emits no URL exactly when there are no families. Every URL starts with the base prefix. |
| LinkPacker.PackUrls | src/components/FontGallery.tsx:109-121 | The index-driven loop with its accumulator and last-index flush computes exactly the packing. |
| LinkPacker.UrlAppend | src/components/FontGallery.tsx:113 | A test string is the URL of the grown batch. The separator is left out only when nothing has been accumulated. |
| LinkPacker.PackIsGreedy | src/components/FontGallery.tsx:112-121 | For non-empty family segments, the loop emits exactly the URLs of the greedy reference cut. That cut is: longest prefix that fits, then repeat on the rest. |
| LinkPacker.GreedyCovers | src/components/FontGallery.tsx:112-121 | The greedy batches hold every family exactly once, in order. There are none exactly when there are no families. Every batch after the first is non-empty. |
| LinkPacker.GreedyWithinBound | src/components/FontGallery.tsx:114-116 | Every greedy batch is within the ceiling or holds at most one family. |
| LinkPacker.GreedySplits | src/components/FontGallery.tsx:114-116 | Every split between greedy batches is forced: the next family would have overflowed the batch. |
| LinkPacker.PackCoverage | src/components/FontGallery.tsx:106-121 | For non-empty family segments: there is one URL per greedy batch. Each URL is the base prefix followed by its families joined by `&family=`. Together the batches carry every requested family once, in order. |
| LinkPacker.PackLengthBound | src/components/FontGallery.tsx:113-116 | For non-empty family segments, every URL is within 1800 characters, unless it carries a single over-long family or is the bare base. Only the first URL can be the bare base. |
| LinkPacker.PackSplitPoints | src/components/FontGallery.tsx:113-118 | For non-empty family segments, a URL and the first family of the next URL would, together, have exceeded the ceiling. |
| LinkPacker.PackFitsInOne | src/components/FontGallery.tsx:112-121 | When all families fit in one URL, exactly that URL is emitted. |
| LinkPacker.OversizedFirstFamilyEmitsBareBase | src/components/FontGallery.tsx:113-116 | As written, a first family that alone overflows makes the first URL the bare base, followed by that family's own URL. |
| LinkPacker.PackCorrected | src/components/FontGallery.tsx:110-121 | The packing without the bare-base flush: empty exactly for no families, and every URL starts with the base prefix. |
| LinkPacker.PackCorrectedIsChunks | src/components/FontGallery.tsx:112-121 | The corrected packing emits exactly the URLs of the greedy chunks. |
| LinkPacker.PackCorrectedProperties | src/components/FontGallery.tsx:113-116 | In the corrected packing, no URL is the bare base. Every URL is within the ceiling or carries a single family, and the URLs carry every family once, in order. |
| LinkPacker.PackCorrectedAgrees | src/components/FontGallery.tsx:113-116 | When the first family fits on its own, the code as written and the corrected packing are equal. |
| FontCatalog.GoogleFamilies | src/components/FontGallery.tsx:106-108 | Selecting the declared segments yields at most one segment per entry. |
| FontCatalog.GoogleFamiliesAppend | src/components/FontGallery.tsx:106-108 | The selection keeps catalog order: selecting from a concatenation concatenates the selections. |
| FontCatalog.GoogleFamiliesExactly | src/components/FontGallery.tsx:106-108 | A segment is selected if and only if some catalog entry declares it. |
| FontCatalog.GoogleFamiliesAllDeclared | src/components/FontGallery.tsx:106-108 | When every entry declares a segment, the selection is those segments, position by position. |
| FontCatalog.GoogleFamiliesNoneDeclared | src/components/FontGallery.tsx:106-108 | When no entry declares a segment, nothing is selected. |
| FontCatalog.PreloadedFontsNotRequested | src/components/FontGallery.tsx:13-18 | The fonts the page already loads contribute nothing to the request: the requested families are exactly those of the additional fonts. |
| FontCatalog.ShortCatalogOneUrl | src/components/FontGallery.tsx:106-121 | Up to 19 entries whose segments are non-empty and at most 45 characters always pack into a single URL. |
| FontCatalog.ShippedCatalogOneUrl | src/components/FontGallery.tsx:13-121 | The shipped catalog (`FontDefs`, entry for entry) requests 19 non-empty families, and they pack into exactly one URL. |
| FontInjector.Hrefs | src/components/FontGallery.tsx:106-121 | One injection's hrefs are empty exactly when the catalog requests no family. Every href starts with the base prefix. |
| FontInjector.Inject | src/components/FontGallery.tsx:101-129 | After injection the flag is set. An injected state is left unchanged. Appended links are only ever added to. From an uninjected state, links are added exactly when some family is requested, and every new link has the base prefix. |
| FontInjector.InjectFontLinks | src/components/FontGallery.tsx:103-129 | Packing and then appending each href in turn, behind the guard, yields the injection. |
| FontInjector.InjectRepeated | src/components/FontGallery.tsx:104-128 | Running the injection any positive number of times has the effect of running it once. |
| FontInjector.InjectFromFresh | src/components/FontGallery.tsx:103-129 | For a catalog whose declared segments are non-empty, from process start the appended links are one per greedy batch. Each is the base plus its joined families, and together they cover the catalog's families in order. |
| FontInjector.ShippedInjectionAppendsOneLink | src/components/FontGallery.tsx:103-129 | With the shipped catalog, the first injection appends exactly one link, and that link requests all 19 families. |
| FontInjector.ShippedHrefsNeedNoCorrection | src/components/FontGallery.tsx:113-116 | The shipped catalog never hits the bare-base flush. Its hrefs equal the corrected packing, and none is the bare base. |
| Button.EffectiveVariant | src/components/Button.tsx:14 | The variant in effect is the declared one, or `secondary` when none is declared. |
| Button.Truthy | src/components/Button.tsx:42 | Filtering keeps exactly the truthy class parts: a part survives if and only if it is non-empty. |
| Button.TruthyAppend | src/components/Button.tsx:42 | Filtering keeps order: the truthy parts of a concatenation are those of each part, in turn. |
| Button.ClassName | src/components/Button.tsx:41-43 | The class list is `button`, then the declared variant's class (`secondary` when none is declared), then the caller's class when it is non-empty, separated by single spaces. |
| Button.Disabled | src/components/Button.tsx:44 | The button is disabled if and only if `disabled` is true, or `disabled` is omitted and `busy` is true. An explicit `false` wins over `busy`. The prop's value is undefined only when both props are omitted. |
| Button.AriaBusy | src/components/Button.tsx:45 | The computed `aria-busy` is `true` exactly when `busy` is true, and is never `false`. |
| Button.Decimal | src/components/Button.tsx:28 | A number's string form is a non-empty run of digits without a leading zero. |
| Button.DecimalRoundTrip | src/components/Button.tsx:28 | Reading back a number's decimal string gives the number. |
| Button.CssLength | src/components/Button.tsx:26-35 | A string dimension is used verbatim, and a numeric one ends in `px`. |
| Button.CssLengthPixels | src/components/Button.tsx:28 | A numeric dimension's value is its digits followed by `px`, and the digits read back to the number. |
| Button.WithDimension | src/components/Button.tsx:26-36 | A defined dimension sets its property to its CSS value. An undefined one leaves the property as it was. Every other property is kept unchanged. |
| Button.ResolvedStyle | src/components/Button.tsx:22-38 | There is no style if and only if width and height are both falsy and no style is given. Otherwise each defined dimension sets its property, an omitted dimension keeps the caller's value, and every other property of the caller's style is kept unchanged. |
| Button.ZeroWidthStillApplied | src/components/Button.tsx:23-29 | Once a style is produced, whether by a truthy height or by a given style, a defined zero width still contributes `0px`. |
| AppShell.Flip | src/App.tsx:79 | The theme toggle always changes the theme. |
| AppShell.Dispatch | src/App.tsx:66-94 | "Fonts" shows the gallery and its close hides it, both leaving the theme alone. The theme button changes the theme and leaves the gallery alone. |
| AppShell.RootClasses | src/App.tsx:17-21 | The root element carries `root` and exactly one theme class: the current theme's. |
| AppShell.ThemeLabel | src/App.tsx:82 | The label reads "Theme: Alt" exactly under `alt`, and "Theme: Classic" exactly under `classic`. |
| AppShell.Step | src/App.tsx:88-94 | An event updates the shell as dispatched. The injection runs exactly when the event takes the gallery from unmounted to mounted (`GalleryMounted`, the `showFonts &&` guard), and the injection state is untouched otherwise. |
| AppShell.Run | src/App.tsx:66-94 | Over any run of events, appended links are only ever added to. Once injected, the injection state never changes again. |
| AppShell.ThemeTwiceRestores | src/App.tsx:79 | After any run, two more theme clicks restore the whole application state. |
| AppShell.OpenIdempotent | src/App.tsx:70 | After any run, a "Fonts" click shows the gallery, and a second click changes nothing: no more links are injected. |
| AppShell.ThemeParity | src/App.tsx:14 | After any run from the initial render (`Initial`: gallery hidden, theme `alt`; `Start` pairs it with the injection state `Fresh`, line 101 of FontGallery.tsx), the theme is `alt` exactly when the theme button was clicked an even number of times. |
| AppShell.GalleryFollowsLastEvent | src/App.tsx:88-94 | After any run, the gallery is mounted exactly when the last gallery event was an open. |
| AppShell.LinksInjectedOnce | src/App.tsx:88-94 | After any run, the injection state is one injection from process start if "Fonts" was ever clicked, and untouched otherwise. A mounted gallery has always injected. |
| AppShell.ShippedAppAppendsOneLink | src/App.tsx:88-94 | However the gallery is opened and closed, exactly one stylesheet link is appended if it was ever opened, and none otherwise. |

A family too long for any URL is evidently meant to stand alone in its own URL. As written, when that family is the first one, the untouched base prefix is flushed before it as an extra URL. `Pack`, and therefore the injection, models that behaviour. `PackCorrected` is the intended packing. The two agree on the shipped catalog (`FontInjector.ShippedHrefsNeedNoCorrection`).

## Left out

- DOM and network: creating `<link>` elements and fetching stylesheets. The head is modelled as the sequence of appended hrefs.
- React scheduling: effects, re-render timing, StrictMode's double effect invocation and concurrent mounts. Each mount of the gallery is one call of the injection, in event order.
- The gallery's markup and styling: the sample text (`FontDef.sample` is not modelled), role hints rendered as text, and the close button's markup. Closing is modelled as the `GalleryClosed` event.
- Button: `children`, the forwarding of `...rest` attributes, and event handlers are not modelled. A caller's own `aria-busy` or other attribute, forwarded in `...rest`, is spread after the computed ones and overrides them; `Button.AriaBusy` states only the computed value. A disabled button swallowing clicks is browser behaviour.
- Button.ResolvedStyle: style values are strings. Numeric style values inside `style`, non-integer or negative numeric dimensions, and JavaScript's exponent notation for large numbers are not modelled.
- Button.ClassName: assumes a variant name is its own class name, as under the non-scoped class-name strategy. A scoped build would hash the names.
- AppShell.RootClasses: `classNames` from `classnames-generics` is taken to join the two given classes. The logos, title and sparkles markup are omitted.
- FontCatalog.FontDefs: family names and role hints are carried as data. Whether the catalog's display names are unique is not proved.
- LinkPacker.Pack: lengths are counted in characters (Unicode scalar values). The source's `.length` counts UTF-16 code units. The two agree for text in the Basic Multilingual Plane, and the shipped catalog is ASCII. For a segment with characters outside that plane, the model undercounts its length.
- LinkPacker.PackSplitPoints: states that every split is forced by the ceiling. It does not state that the number of URLs is the minimum possible over all packings.
- The build, lint, test configuration and entry-point files (`main.tsx`) hold no behaviour of this core.

## Findings

| source | as written | input that shows it | evidently intended | confidence | as-written member | corrected member |
|---|---|---|---|---|---|---|
| src/components/FontGallery.tsx:113-116 | When the first family alone overflows the ceiling, the still-empty accumulator (the bare base URL) is flushed as a URL of its own. | A catalog whose first requested segment has 1747 characters: 54 + 1747 > 1800, so the first emitted URL is `https://fonts.googleapis.com/css2?display=swap&family=` with no family. | The over-long family stands alone in its own URL, and no URL without a family is emitted. | high (not executed) | LinkPacker.OversizedFirstFamilyEmitsBareBase | LinkPacker.PackCorrectedProperties |
