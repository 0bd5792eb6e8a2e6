/**
 * The static catalog of preview fonts and the selection of the families the
 * gallery must request from the external font service.
 */
module FontCatalog {
  import opened Wrappers
  import LinkPacker

  /**
   * One catalog entry: the CSS font-family name, the font service's query
   * segment for it (absent when the hosting page already loads the font),
   * and a suggested typographic role.
   */
  datatype FontDef = FontDef(name: string, google: Option<string>, roleHint: string)

  /** The shipped catalog, in display order. */
  const FontDefs: seq<FontDef> := Preloaded + Additional

  /** The leading entries, whose fonts the hosting page already loads. */
  const Preloaded: seq<FontDef> := [
    FontDef("Cinzel Decorative", None, "Brand Title / Hero"),
    FontDef("Cormorant SC", None, "Headings / Body Large"),
    FontDef("Uncial Antiqua", None, "Accent / Drop Caps"),
    FontDef("MedievalSharp", None, "Playful Accent")
  ]

  /** The additional preview fonts, loaded on demand from the font service. */
  const Additional: seq<FontDef> := [
    FontDef("Cinzel", Some("Cinzel:wght@400;600;700"), "Headings (crisper than Decorative)"),
    FontDef("EB Garamond", Some("EB+Garamond:ital,wght@0,400;0,500;0,700;1,400"), "Body Paragraphs"),
    FontDef("Cardo", Some("Cardo:wght@400;700"), "Body (scholarly)"),
    FontDef("Alegreya", Some("Alegreya:ital,wght@0,400;0,600;1,400"), "Body / Long Form"),
    FontDef("Alegreya SC", Some("Alegreya+SC:wght@400;600"), "Small Caps Headings"),
    FontDef("Vollkorn", Some("Vollkorn:wght@400;600;700"), "Body / Subhead"),
    FontDef("Spectral", Some("Spectral:ital,wght@0,400;0,600;1,400"), "Body / UI Labels"),
    FontDef("Spectral SC", Some("Spectral+SC:wght@400;600"), "Small Caps Headings"),
    FontDef("Libre Baskerville", Some("Libre+Baskerville:ital,wght@0,400;0,700;1,400"), "Body / Subhead"),
    FontDef("Caudex", Some("Caudex:ital,wght@0,400;0,700;1,400"), "Body / Display"),
    FontDef("Goudy Bookletter 1911", Some("Goudy+Bookletter+1911"), "Body / Vintage"),
    FontDef("IM Fell English", Some("IM+Fell+English:ital@0;1"), "Accent Italic / Quotes"),
    FontDef("IM Fell DW Pica", Some("IM+Fell+DW+Pica:ital@0;1"), "Accent Italic / Quotes"),
    FontDef("Marcellus SC", Some("Marcellus+SC"), "Refined Small Caps Headings"),
    FontDef("Forum", Some("Forum"), "Display Heading"),
    FontDef("Yeseva One", Some("Yeseva+One"), "Decorative Subhead"),
    FontDef("Almendra Display", Some("Almendra+Display"), "Flourish / Accent"),
    FontDef("Pirata One", Some("Pirata+One"), "Blackletter Accent Only"),
    FontDef("Rye", Some("Rye"), "Woodcut Style Accent")
  ]

  /** The query segments of the entries that declare one, in catalog order. */
  function GoogleFamilies(defs: seq<FontDef>): (fams: seq<string>)
    ensures |fams| <= |defs|
  {
    if |defs| == 0 then []
    else
      (match defs[0].google
       case Some(g) => [g]
       case None => [])
      + GoogleFamilies(defs[1..])
  }

  /** Order preservation: the selection of a concatenation is the concatenation of the selections. */
  lemma {:induction false} GoogleFamiliesAppend(a: seq<FontDef>, b: seq<FontDef>)
    ensures GoogleFamilies(a + b) == GoogleFamilies(a) + GoogleFamilies(b)
    decreases |a|
  {
    if |a| > 0 {
      assert (a + b)[1..] == a[1..] + b;
      GoogleFamiliesAppend(a[1..], b);
    } else {
      assert a + b == b;
    }
  }

  /** A family is selected exactly when some entry declares it. */
  lemma {:induction false} GoogleFamiliesExactly(defs: seq<FontDef>, f: string)
    ensures f in GoogleFamilies(defs) <==> exists i :: 0 <= i < |defs| && defs[i].google == Some(f)
    decreases |defs|
  {
    if |defs| > 0 {
      GoogleFamiliesExactly(defs[1..], f);
      if exists i :: 0 <= i < |defs[1..]| && defs[1..][i].google == Some(f) {
        var i :| 0 <= i < |defs[1..]| && defs[1..][i].google == Some(f);
        assert defs[i + 1].google == Some(f);
      }
      if exists i :: 0 <= i < |defs| && defs[i].google == Some(f) {
        var i :| 0 <= i < |defs| && defs[i].google == Some(f);
        if i > 0 {
          assert defs[1..][i - 1].google == Some(f);
        }
      }
    }
  }

  /** When every entry declares a segment, the selection is every entry's segment, position by position. */
  lemma {:induction false} GoogleFamiliesAllDeclared(defs: seq<FontDef>)
    requires forall i :: 0 <= i < |defs| ==> defs[i].google.Some?
    ensures |GoogleFamilies(defs)| == |defs|
    ensures forall i :: 0 <= i < |defs| ==> GoogleFamilies(defs)[i] == defs[i].google.value
    decreases |defs|
  {
    if |defs| > 0 {
      GoogleFamiliesAllDeclared(defs[1..]);
    }
  }

  /** When no entry declares a segment, nothing is selected. */
  lemma {:induction false} GoogleFamiliesNoneDeclared(defs: seq<FontDef>)
    requires forall i :: 0 <= i < |defs| ==> defs[i].google.None?
    ensures GoogleFamilies(defs) == []
    decreases |defs|
  {
    if |defs| > 0 {
      GoogleFamiliesNoneDeclared(defs[1..]);
    }
  }

  /** The fonts the hosting page already loads declare no segment, so only the additional fonts are requested. */
  lemma PreloadedFontsNotRequested()
    ensures GoogleFamilies(FontDefs) == GoogleFamilies(Additional)
  {
    assert forall i :: 0 <= i < |Preloaded| ==> Preloaded[i].google.None?;
    UndeclaredPrefixIgnored(Preloaded, Additional);
  }

  /** Entries that declare no segment, placed ahead of others, change nothing in the selection. */
  lemma UndeclaredPrefixIgnored(pre: seq<FontDef>, rest: seq<FontDef>)
    requires forall i :: 0 <= i < |pre| ==> pre[i].google.None?
    ensures GoogleFamilies(pre + rest) == GoogleFamilies(rest)
  {
    GoogleFamiliesAppend(pre, rest);
    GoogleFamiliesNoneDeclared(pre);
    assert [] + GoogleFamilies(rest) == GoogleFamilies(rest);
  }

  /** Every additional entry declares a non-empty segment of at most 45 characters. */
  lemma AdditionalSegments()
    ensures |Additional| == 19
    ensures forall i :: 0 <= i < |Additional| ==>
      Additional[i].google.Some? && 0 < |Additional[i].google.value| <= 45
  {
  }

  /** Up to 19 entries whose segments are non-empty and at most 45 characters long fit in one URL. */
  lemma ShortCatalogOneUrl(defs: seq<FontDef>)
    requires |defs| <= 19
    requires forall i :: 0 <= i < |defs| ==> defs[i].google.Some? && 0 < |defs[i].google.value| <= 45
    ensures |GoogleFamilies(defs)| == |defs|
    ensures LinkPacker.NonEmptyFamilies(GoogleFamilies(defs))
    ensures |defs| > 0 ==>
      LinkPacker.Pack(GoogleFamilies(defs), LinkPacker.MaxUrlLength) == [LinkPacker.Url(GoogleFamilies(defs))]
  {
    GoogleFamiliesAllDeclared(defs);
    var fams := GoogleFamilies(defs);
    if |defs| > 0 {
      ShortBatchFits(fams);
      LinkPacker.PackFitsInOne(fams, LinkPacker.MaxUrlLength);
    }
  }

  /** At most 19 segments of at most 45 characters make a URL within the ceiling. */
  lemma ShortBatchFits(fams: seq<string>)
    requires |fams| <= 19
    requires forall i :: 0 <= i < |fams| ==> |fams[i]| <= 45
    ensures |LinkPacker.Url(fams)| <= LinkPacker.MaxUrlLength
  {
    LinkPacker.JoinLengthBound(fams, 45);
    assert |LinkPacker.Sep| == 8 && |LinkPacker.Base| == 54;
    var n := |fams|;
    assert n * 53 <= 19 * 53;
  }

  /**
   * The shipped catalog requests 19 non-empty families, and they all fit in
   * one URL, so exactly one stylesheet URL is emitted.
   */
  lemma ShippedCatalogOneUrl()
    ensures |GoogleFamilies(FontDefs)| == 19
    ensures LinkPacker.NonEmptyFamilies(GoogleFamilies(FontDefs))
    ensures LinkPacker.Pack(GoogleFamilies(FontDefs), LinkPacker.MaxUrlLength)
         == [LinkPacker.Url(GoogleFamilies(FontDefs))]
  {
    PreloadedFontsNotRequested();
    AdditionalSegments();
    ShortCatalogOneUrl(Additional);
  }
}
