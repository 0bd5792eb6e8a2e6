/**
 * The one-shot stylesheet injection performed when the font gallery mounts.
 * The process-wide `fontsInjected` flag and the `<link>` elements appended to
 * the document head are modelled as one explicit state value.
 */
module FontInjector {
  import opened FontCatalog
  import opened LinkPacker

  /**
   * Whether the links were already injected in this process, and the
   * stylesheet hrefs appended to the document head so far, oldest first.
   */
  datatype Injector = Injector(injected: bool, appended: seq<string>)

  /** The state at process start: nothing injected, no links appended. */
  const Fresh: Injector := Injector(false, [])

  /** The new hrefs of one injection: the packed URLs of the catalog's requested families. */
  function Hrefs(defs: seq<FontDef>): (hrefs: seq<string>)
    ensures |hrefs| == 0 <==> GoogleFamilies(defs) == []
    ensures AllStartWithBase(hrefs)
  {
    Pack(GoogleFamilies(defs), MaxUrlLength)
  }

  /** `injectFontLinks` over the catalog `defs`: a guarded, one-time append of the packed URLs. */
  function Inject(s: Injector, defs: seq<FontDef>): (s': Injector)
    ensures s'.injected
    ensures s.injected ==> s' == s
    ensures s.appended <= s'.appended
    ensures !s.injected ==> (|s'.appended| == |s.appended| <==> GoogleFamilies(defs) == [])
    ensures forall i :: |s.appended| <= i < |s'.appended| ==> Base <= s'.appended[i]
  {
    if s.injected then s
    else Injector(true, s.appended + Hrefs(defs))
  }

  /** The same operation written as the source does it: pack, then append each href in turn. */
  method InjectFontLinks(s: Injector, defs: seq<FontDef>) returns (s': Injector)
    ensures s' == Inject(s, defs)
  {
    if s.injected {
      return s;
    }
    var urls := PackUrls(GoogleFamilies(defs), MaxUrlLength);
    var head := s.appended;
    var k := 0;
    while k < |urls|
      invariant 0 <= k <= |urls|
      invariant head == s.appended + urls[..k]
    {
      head := head + [urls[k]];
      k := k + 1;
      assert urls[..k] == urls[..k - 1] + [urls[k - 1]];
    }
    assert urls[..|urls|] == urls;
    s' := Injector(true, head);
  }

  /** `n` successive calls of the injection, as `n` mounts of the gallery make. */
  function InjectTimes(s: Injector, defs: seq<FontDef>, n: nat): Injector
    decreases n
  {
    if n == 0 then s else InjectTimes(Inject(s, defs), defs, n - 1)
  }

  /** Idempotence: however many times it runs, the injection has the effect of running once. */
  lemma {:induction false} InjectRepeated(s: Injector, defs: seq<FontDef>, n: nat)
    requires n >= 1
    ensures InjectTimes(s, defs, n) == Inject(s, defs)
    decreases n
  {
    if n > 1 {
      InjectRepeated(Inject(s, defs), defs, n - 1);
    }
  }

  /**
   * From process start, one injection appends exactly the packed URLs of the
   * catalog's requested families: one URL per greedy batch, covering every
   * family once and in catalog order.
   */
  lemma InjectFromFresh(defs: seq<FontDef>)
    requires NonEmptyFamilies(GoogleFamilies(defs))
    ensures Inject(Fresh, defs).injected
    ensures |Inject(Fresh, defs).appended| == |Greedy(GoogleFamilies(defs), MaxUrlLength)|
    ensures forall i :: 0 <= i < |Inject(Fresh, defs).appended| ==>
      Inject(Fresh, defs).appended[i] == Base + Join(Greedy(GoogleFamilies(defs), MaxUrlLength)[i])
    ensures Flatten(Greedy(GoogleFamilies(defs), MaxUrlLength)) == GoogleFamilies(defs)
  {
    assert Inject(Fresh, defs).appended == Hrefs(defs);
    PackCoverage(GoogleFamilies(defs), MaxUrlLength);
  }

  /** With the shipped catalog, one injection from process start appends exactly one link. */
  lemma ShippedInjectionAppendsOneLink()
    ensures Inject(Fresh, FontDefs).appended == [Url(GoogleFamilies(FontDefs))]
  {
    ShippedCatalogOneUrl();
    assert Inject(Fresh, FontDefs).appended == [] + Hrefs(FontDefs);
  }

  /**
   * The shipped catalog never reaches the bare-base flush: its hrefs are those
   * of the corrected packing, so the one link it appends requests families.
   */
  lemma ShippedHrefsNeedNoCorrection()
    ensures Hrefs(FontDefs) == PackCorrected(GoogleFamilies(FontDefs), MaxUrlLength)
    ensures forall i :: 0 <= i < |Hrefs(FontDefs)| ==> Hrefs(FontDefs)[i] != Base
  {
    var fams := GoogleFamilies(FontDefs);
    ShippedCatalogOneUrl();
    if |Url([fams[0]])| > MaxUrlLength {
      OversizedFirstFamilyEmitsBareBase(fams, MaxUrlLength);
      assert false;
    }
    PackCorrectedAgrees(fams, MaxUrlLength);
    PackCorrectedProperties(fams, MaxUrlLength);
  }
}
