/**
 * How the `Button` component resolves its props into the attributes of the
 * rendered `<button>`: the class list, `disabled`, `aria-busy` and `style`.
 * Class names are the style module's own names (the test build does not
 * scope them).
 */
module Button {
  import opened Wrappers

  /** The visual variants a button may declare. */
  datatype Variant = Primary | Secondary | Ghost | Fae

  /** A width or height: a number of pixels, or any CSS length text. */
  datatype Dimension = Num(px: nat) | Str(text: string)

  /** Inline style declarations, property name to value. */
  type Style = map<string, string>

  /** The props the component reads; `None` stands for an omitted prop. */
  datatype Props = Props(
    width: Option<Dimension>,
    height: Option<Dimension>,
    variant: Option<Variant>,
    busy: Option<bool>,
    disabled: Option<bool>,
    className: Option<string>,
    style: Option<Style>)

  /** The class every button carries. */
  const BaseClass: string := "button"

  /** The class of a variant. */
  function VariantClass(v: Variant): string {
    match v
    case Primary => "primary"
    case Secondary => "secondary"
    case Ghost => "ghost"
    case Fae => "fae"
  }

  /** The variant in effect: the declared one, or `Secondary` when none is declared. */
  function EffectiveVariant(p: Props): (v: Variant)
    ensures p.variant.Some? ==> v == p.variant.value
    ensures p.variant.None? ==> v == Secondary
  {
    p.variant.GetOr(Secondary)
  }

  // ---------------------------------------------------------------------
  // Class list
  // ---------------------------------------------------------------------

  /** The non-empty strings of `parts`, in order (JavaScript's `filter(Boolean)` on strings). */
  function Truthy(parts: seq<string>): (r: seq<string>)
    ensures |r| <= |parts|
    ensures forall i :: 0 <= i < |r| ==> r[i] != ""
    ensures forall x :: x in r <==> x in parts && x != ""
  {
    if |parts| == 0 then []
    else (if parts[0] == "" then [] else [parts[0]]) + Truthy(parts[1..])
  }

  /** Filtering keeps order: the truthy parts of a concatenation are those of each side, in turn. */
  lemma {:induction false} TruthyAppend(a: seq<string>, b: seq<string>)
    ensures Truthy(a + b) == Truthy(a) + Truthy(b)
    decreases |a|
  {
    if |a| > 0 {
      assert (a + b)[1..] == a[1..] + b;
      TruthyAppend(a[1..], b);
    } else {
      assert a + b == b;
    }
  }

  /** The words of `ws` separated by single spaces (JavaScript's `join(" ")`). */
  function Words(ws: seq<string>): string {
    if |ws| == 0 then ""
    else if |ws| == 1 then ws[0]
    else ws[0] + " " + Words(ws[1..])
  }

  /**
   * The `className` of the rendered button: the base class, then the
   * variant's class (`secondary` when no variant is declared), then the
   * caller's class when it is present and non-empty, separated by single spaces.
   */
  function ClassName(p: Props): (c: string)
    ensures c ==
      BaseClass + " " + VariantClass(if p.variant.Some? then p.variant.value else Secondary)
      + (if p.className.Some? && p.className.value != "" then " " + p.className.value else "")
  {
    var v := VariantClass(EffectiveVariant(p));
    var extra := p.className.GetOr("");
    ClassWords(v, extra);
    Words(Truthy([BaseClass, v, extra]))
  }

  /** Joining the truthy ones of the base class, a non-empty variant class and an extra class. */
  lemma ClassWords(v: string, c: string)
    requires v != ""
    ensures Words(Truthy([BaseClass, v, c])) == BaseClass + " " + v + (if c != "" then " " + c else "")
  {
    var parts := [BaseClass, v, c];
    assert parts[1..] == [v, c] && [v, c][1..] == [c] && [c][1..] == [];
    assert BaseClass != "";
    assert Truthy([c]) == (if c == "" then [] else [c]);
    assert Truthy([v, c]) == [v] + Truthy([c]);
    assert Truthy(parts) == [BaseClass] + Truthy([v, c]);
    if c == "" {
      assert Truthy(parts) == [BaseClass, v];
      assert [BaseClass, v][1..] == [v];
      assert Words([BaseClass, v]) == BaseClass + " " + v;
      assert BaseClass + " " + v + "" == BaseClass + " " + v;
    } else {
      assert Truthy(parts) == [BaseClass, v, c];
      assert [BaseClass, v, c][1..] == [v, c] && [v, c][1..] == [c];
      assert Words([v, c]) == v + " " + c;
      assert Words([BaseClass, v, c]) == BaseClass + " " + (v + " " + c);
    }
  }

  // ---------------------------------------------------------------------
  // disabled and aria-busy
  // ---------------------------------------------------------------------

  /** The `disabled` attribute: `disabled ?? busy`. */
  function Disabled(p: Props): (d: Option<bool>)
    ensures d == Some(true) <==> p.disabled == Some(true) || (p.disabled.None? && p.busy == Some(true))
    ensures d.None? <==> p.disabled.None? && p.busy.None?
    ensures p.disabled == Some(false) ==> d == Some(false)
  {
    if p.disabled.Some? then p.disabled else p.busy
  }

  /** The `aria-busy` attribute: present and true exactly when busy, absent otherwise. */
  function AriaBusy(p: Props): (a: Option<bool>)
    ensures a == Some(true) <==> p.busy == Some(true)
    ensures a != Some(false)
  {
    if p.busy == Some(true) then Some(true) else None
  }

  // ---------------------------------------------------------------------
  // style
  // ---------------------------------------------------------------------

  /** The decimal digit character for `d`. */
  function Digit(d: nat): (c: char)
    requires d < 10
    ensures '0' <= c <= '9'
  {
    (('0' as int) + d) as char
  }

  /** The decimal numeral of `n`, without leading zeros (JavaScript's `String(n)` for a whole number). */
  function Decimal(n: nat): (s: string)
    ensures |s| > 0
    ensures forall i :: 0 <= i < |s| ==> '0' <= s[i] <= '9'
    ensures |s| > 1 ==> s[0] != '0'
    decreases n
  {
    if n < 10 then [Digit(n)] else Decimal(n / 10) + [Digit(n % 10)]
  }

  /** The number a string of decimal digits denotes. */
  function ParseDecimal(s: string): nat
    requires forall i :: 0 <= i < |s| ==> '0' <= s[i] <= '9'
  {
    if |s| == 0 then 0
    else 10 * ParseDecimal(s[..|s| - 1]) + ((s[|s| - 1] as int) - ('0' as int))
  }

  /** Reading back the numeral of `n` gives `n`. */
  lemma {:induction false} DecimalRoundTrip(n: nat)
    ensures ParseDecimal(Decimal(n)) == n
    decreases n
  {
    if n >= 10 {
      var s := Decimal(n);
      assert s[..|s| - 1] == Decimal(n / 10);
      DecimalRoundTrip(n / 10);
    }
  }

  /** The CSS value of a dimension: pixels for a number, the text itself otherwise. */
  function CssLength(d: Dimension): (v: string)
    ensures d.Str? ==> v == d.text
    ensures d.Num? ==> |v| > 2 && v[|v| - 2..] == "px"
  {
    match d
    case Num(n) => Decimal(n) + "px"
    case Str(t) => t
  }

  /** A numeric dimension's CSS value is its numeral followed by `px`, so the pixel count can be read back. */
  lemma CssLengthPixels(n: nat)
    ensures var v := CssLength(Num(n));
      (forall i :: 0 <= i < |v| - 2 ==> '0' <= v[i] <= '9') && ParseDecimal(v[..|v| - 2]) == n
  {
    var v := CssLength(Num(n));
    assert v[..|v| - 2] == Decimal(n);
    DecimalRoundTrip(n);
  }

  /** JavaScript truthiness of an optional dimension: omitted, `0` and `""` are falsy. */
  predicate DimensionTruthy(d: Option<Dimension>) {
    match d
    case None => false
    case Some(Num(n)) => n != 0
    case Some(Str(t)) => t != ""
  }

  /** A style property, overridden by a dimension only when that dimension is defined; the other properties are kept. */
  function WithDimension(s: Style, key: string, d: Option<Dimension>): (r: Style)
    ensures d.Some? ==> key in r && r[key] == CssLength(d.value)
    ensures d.None? ==> (key in r <==> key in s) && (key in r ==> r[key] == s[key])
    ensures forall k :: k != key ==> (k in r <==> k in s) && (k in r ==> r[k] == s[k])
  {
    if d.Some? then s[key := CssLength(d.value)] else s
  }

  /**
   * The inline style: absent unless width, height or style is truthy;
   * otherwise the caller's style with a defined width and height laid over it.
   */
  function ResolvedStyle(p: Props): (r: Option<Style>)
    ensures r.None? <==> !DimensionTruthy(p.width) && !DimensionTruthy(p.height) && p.style.None?
    ensures r.Some? && p.width.Some? ==> "width" in r.value && r.value["width"] == CssLength(p.width.value)
    ensures r.Some? && p.height.Some? ==> "height" in r.value && r.value["height"] == CssLength(p.height.value)
    ensures r.Some? && p.width.None? ==>
      ("width" in r.value <==> p.style.Some? && "width" in p.style.value) &&
      ("width" in r.value ==> r.value["width"] == p.style.value["width"])
    ensures r.Some? && p.height.None? ==>
      ("height" in r.value <==> p.style.Some? && "height" in p.style.value) &&
      ("height" in r.value ==> r.value["height"] == p.style.value["height"])
    ensures r.Some? ==> forall k :: k != "width" && k != "height" ==>
      (k in r.value <==> p.style.Some? && k in p.style.value) &&
      (k in r.value ==> r.value[k] == p.style.value[k])
  {
    if DimensionTruthy(p.width) || DimensionTruthy(p.height) || p.style.Some? then
      Some(WithDimension(WithDimension(p.style.GetOr(map[]), "width", p.width), "height", p.height))
    else None
  }

  /** Once a style is produced, a defined width of 0 still contributes `0px`. */
  lemma ZeroWidthStillApplied(p: Props)
    requires p.width == Some(Num(0)) && ResolvedStyle(p).Some?
    ensures ResolvedStyle(p).Some? && ResolvedStyle(p).value["width"] == "0px"
  {
    assert Decimal(0) == "0";
  }
}
