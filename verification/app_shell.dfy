/**
 * The root shell: two independent pieces of UI state (whether the font
 * gallery is shown, and the font theme), the events that change them, what
 * the shell derives from them, and the gallery's mount-time injection
 * composed with the shell's event stream.
 */
module AppShell {
  import opened FontCatalog
  import opened FontInjector
  import LinkPacker

  /** The two font themes. */
  datatype Theme = Alt | Classic

  /** The shell's state: whether the font gallery is shown, and the theme. */
  datatype Shell = Shell(showFonts: bool, fontTheme: Theme)

  /** The state on first render: gallery closed, theme `Alt`. */
  const Initial: Shell := Shell(false, Alt)

  /** User events: the "Fonts" button, the theme button, and the gallery's close notification. */
  datatype Event = FontsClicked | ThemeClicked | GalleryClosed

  /** The other theme. */
  function Flip(t: Theme): (u: Theme)
    ensures u != t
  {
    if t == Classic then Alt else Classic
  }

  /** The shell's response to one event; each event touches only its own piece of state. */
  function Dispatch(s: Shell, e: Event): (s': Shell)
    ensures e == FontsClicked ==> s'.showFonts && s'.fontTheme == s.fontTheme
    ensures e == GalleryClosed ==> !s'.showFonts && s'.fontTheme == s.fontTheme
    ensures e == ThemeClicked ==> s'.showFonts == s.showFonts && s'.fontTheme != s.fontTheme
  {
    match e
    case FontsClicked => s.(showFonts := true)
    case GalleryClosed => s.(showFonts := false)
    case ThemeClicked => s.(fontTheme := Flip(s.fontTheme))
  }

  /** Whether the font gallery is mounted: exactly when it is shown. */
  predicate GalleryMounted(s: Shell) {
    s.showFonts
  }

  /** The classes of the root element: `root` and exactly one theme class, the current theme's. */
  function RootClasses(s: Shell): (cs: seq<string>)
    ensures |cs| == 2 && cs[0] == "root"
    ensures "alt" in cs <==> s.fontTheme == Alt
    ensures "classic" in cs <==> s.fontTheme == Classic
  {
    ["root", if s.fontTheme == Classic then "classic" else "alt"]
  }

  /** The theme button's label. */
  function ThemeLabel(s: Shell): (text: string)
    ensures text == "Theme: Alt" <==> s.fontTheme == Alt
    ensures text == "Theme: Classic" <==> s.fontTheme == Classic
  {
    "Theme: " + (if s.fontTheme == Classic then "Classic" else "Alt")
  }

  // ---------------------------------------------------------------------
  // The shell composed with the gallery's injection
  // ---------------------------------------------------------------------

  /** The whole application: the shell's state and the process-wide injection state. */
  datatype World = World(shell: Shell, links: Injector)

  /** Process start: the shell's first render, nothing injected. */
  const Start: World := World(Initial, Fresh)

  /**
   * One event: the shell reacts, and a gallery that becomes mounted runs the
   * injection; otherwise the injection state is untouched.
   */
  function Step(w: World, e: Event): (w': World)
    ensures w'.shell == Dispatch(w.shell, e)
    ensures !GalleryMounted(w.shell) && GalleryMounted(w'.shell) ==> w'.links == Inject(w.links, FontDefs)
    ensures !(!GalleryMounted(w.shell) && GalleryMounted(w'.shell)) ==> w'.links == w.links
  {
    var shell := Dispatch(w.shell, e);
    var mounts := !GalleryMounted(w.shell) && GalleryMounted(shell);
    World(shell, if mounts then Inject(w.links, FontDefs) else w.links)
  }

  /**
   * The world after the events `es`, in order. Links are only ever added,
   * and once injected the injection state never changes again.
   */
  function Run(w: World, es: seq<Event>): (r: World)
    ensures w.links.appended <= r.links.appended
    ensures w.links.injected ==> r.links == w.links
    ensures |es| == 0 ==> r == w
    decreases |es|
  {
    if |es| == 0 then w else Step(Run(w, es[..|es| - 1]), es[|es| - 1])
  }

  /** How many of the events are `e`. */
  function Count(es: seq<Event>, e: Event): nat {
    if |es| == 0 then 0 else Count(es[..|es| - 1], e) + (if es[|es| - 1] == e then 1 else 0)
  }

  /** The theme after a run is `Alt` exactly when the theme button was clicked an even number of times. */
  lemma {:induction false} ThemeParity(es: seq<Event>)
    ensures Run(Start, es).shell.fontTheme == (if Count(es, ThemeClicked) % 2 == 0 then Alt else Classic)
    decreases |es|
  {
    if |es| > 0 {
      ThemeParity(es[..|es| - 1]);
    }
  }

  /** Whether the last gallery event of `es` (an open or a close) was an open. */
  predicate LastGalleryEventOpens(es: seq<Event>)
    decreases |es|
  {
    if |es| == 0 then false
    else if es[|es| - 1] == FontsClicked then true
    else if es[|es| - 1] == GalleryClosed then false
    else LastGalleryEventOpens(es[..|es| - 1])
  }

  /** The gallery is mounted after a run exactly when the last gallery event was an open. */
  lemma {:induction false} GalleryFollowsLastEvent(es: seq<Event>)
    ensures GalleryMounted(Run(Start, es).shell) <==> LastGalleryEventOpens(es)
    decreases |es|
  {
    if |es| > 0 {
      GalleryFollowsLastEvent(es[..|es| - 1]);
    }
  }

  /**
   * However the gallery is opened and closed, the font links are appended
   * once: after a run the injection state is that of one injection from
   * process start if "Fonts" was ever clicked, and untouched otherwise; and a
   * mounted gallery has always injected.
   */
  lemma {:induction false} LinksInjectedOnce(es: seq<Event>)
    ensures Run(Start, es).links == (if FontsClicked in es then Inject(Fresh, FontDefs) else Fresh)
    ensures GalleryMounted(Run(Start, es).shell) ==> Run(Start, es).links.injected
    decreases |es|
  {
    if |es| > 0 {
      var init := es[..|es| - 1];
      LinksInjectedOnce(init);
      assert es == init + [es[|es| - 1]];
      assert FontsClicked in es <==> FontsClicked in init || es[|es| - 1] == FontsClicked;
    }
  }

  /** With the shipped catalog, any run appends exactly one stylesheet link if "Fonts" was ever clicked, and none otherwise. */
  lemma ShippedAppAppendsOneLink(es: seq<Event>)
    ensures Run(Start, es).links.appended ==
      if FontsClicked in es then [LinkPacker.Url(GoogleFamilies(FontDefs))] else []
  {
    LinksInjectedOnce(es);
    ShippedInjectionAppendsOneLink();
  }

  /** Two theme clicks in a row, after any run, restore the whole world. */
  lemma ThemeTwiceRestores(w: World, es: seq<Event>)
    ensures Run(w, es + [ThemeClicked, ThemeClicked]) == Run(w, es)
  {
    var es2 := es + [ThemeClicked, ThemeClicked];
    assert es2[..|es2| - 1] == es + [ThemeClicked];
    assert (es + [ThemeClicked])[..|es| + 1 - 1] == es;
  }

  /** A second "Fonts" click, after any run, changes nothing: the gallery stays shown and nothing more is injected. */
  lemma OpenIdempotent(w: World, es: seq<Event>)
    ensures Run(w, es + [FontsClicked, FontsClicked]) == Run(w, es + [FontsClicked])
    ensures Run(w, es + [FontsClicked]).shell.showFonts
  {
    var es2 := es + [FontsClicked, FontsClicked];
    assert es2[..|es2| - 1] == es + [FontsClicked];
  }
}
