/** ngx_http_security_headers_filter: the fixed sequence of calls to
    ngx_set_headers_out_by_search made for each response. The status,
    whether the response's content type is in security_headers_nosniff_types
    and the resolved settings are inputs; the header list is the state. */
module Policy {
  import opened Wrappers
  import opened Headers
  import opened Config

  const HttpOk: nat := 200           // NGX_HTTP_OK
  const HttpNotModified: nat := 304  // NGX_HTTP_NOT_MODIFIED

  /** The five call sites of the filter, in the order they run. */
  datatype Site = NoSniff | XssProtection | FrameOptions | PoweredBy | ServerToken

  function Rank(s: Site): nat {
    match s
    case NoSniff => 0
    case XssProtection => 1
    case FrameOptions => 2
    case PoweredBy => 3
    case ServerToken => 4
  }

  /** One call: where it is made, the key and the value it passes. */
  datatype Call = Call(site: Site, key: string, value: string)

  function XssValue(m: XssMode): string
    requires m != XssOmit
  {
    match m
    case XssOn => "1"
    case XssBlock => "1; mode=block"
    case XssOff => "0"
  }

  function FrameValue(m: FrameMode): string
    requires m != FrameOmit
  {
    match m
    case FrameSameOrigin => "SAMEORIGIN"
    case FrameDeny => "DENY"
  }

  predicate Has(plan: seq<Call>, site: Site) {
    exists i :: 0 <= i < |plan| && plan[i].site == site
  }

  function NoSniffCalls(status: nat, nosniffType: bool): seq<Call> {
    if status == HttpOk && nosniffType then [Call(NoSniff, "X-Content-Type-Options", "nosniff")] else []
  }

  function XssCalls(s: Settings, status: nat): seq<Call> {
    if status != HttpNotModified && s.xss != XssOmit
    then [Call(XssProtection, "X-XSS-Protection", XssValue(s.xss))] else []
  }

  function FrameCalls(s: Settings, status: nat): seq<Call> {
    if status != HttpNotModified && s.fo != FrameOmit
    then [Call(FrameOptions, "X-Frame-Options", FrameValue(s.fo))] else []
  }

  const Clears: seq<Call> := [Call(PoweredBy, "x-powered-by", ""), Call(ServerToken, "server", "")]

  /** The calls the filter makes for one response, in order. */
  function Plan(s: Settings, status: nat, nosniffType: bool): seq<Call> {
    if !s.enable then []
    else NoSniffCalls(status, nosniffType) + XssCalls(s, status) + FrameCalls(s, status) + Clears
  }

  lemma HasConcat(a: seq<Call>, b: seq<Call>, site: Site)
    ensures Has(a + b, site) <==> Has(a, site) || Has(b, site)
  {
    if Has(a + b, site) {
      var i :| 0 <= i < |a + b| && (a + b)[i].site == site;
      if i >= |a| {
        assert b[i - |a|].site == site;
      }
    }
    if Has(a, site) {
      var i :| 0 <= i < |a| && a[i].site == site;
      assert (a + b)[i].site == site;
    }
    if Has(b, site) {
      var i :| 0 <= i < |b| && b[i].site == site;
      assert (a + b)[|a| + i].site == site;
    }
  }

  /** The decisions of lines 143-194: nothing when the module is off;
      otherwise X-Content-Type-Options only for status 200 and a content
      type in the nosniff set, X-XSS-Protection and X-Frame-Options for
      every status but 304 unless their mode is omit, and the clears of
      x-powered-by and server always. */
  lemma PlanSites(s: Settings, status: nat, nosniffType: bool, site: Site)
    ensures Has(Plan(s, status, nosniffType), site) <==>
      s.enable && match site
        case NoSniff => status == HttpOk && nosniffType
        case XssProtection => status != HttpNotModified && s.xss != XssOmit
        case FrameOptions => status != HttpNotModified && s.fo != FrameOmit
        case PoweredBy => true
        case ServerToken => true
  {
    if s.enable {
      var n, x, f := NoSniffCalls(status, nosniffType), XssCalls(s, status), FrameCalls(s, status);
      assert Plan(s, status, nosniffType) == ((n + x) + f) + Clears;
      HasConcat(n + x + f, Clears, site);
      HasConcat(n + x, f, site);
      HasConcat(n, x, site);
      if n != [] { assert n[0].site == NoSniff; }
      if x != [] { assert x[0].site == XssProtection; }
      if f != [] { assert f[0].site == FrameOptions; }
      assert Clears[0].site == PoweredBy && Clears[1].site == ServerToken;
    }
  }

  /** Sites strictly in the order the filter visits them. */
  predicate Increasing(r: seq<Call>) {
    forall i, j :: 0 <= i < j < |r| ==> Rank(r[i].site) < Rank(r[j].site)
  }

  predicate RanksIn(r: seq<Call>, lo: nat, hi: nat) {
    forall i :: 0 <= i < |r| ==> lo <= Rank(r[i].site) < hi
  }

  lemma IncreasingConcat(a: seq<Call>, b: seq<Call>, lo: nat, mid: nat, hi: nat)
    requires lo <= mid <= hi
    requires Increasing(a) && RanksIn(a, lo, mid)
    requires Increasing(b) && RanksIn(b, mid, hi)
    ensures Increasing(a + b) && RanksIn(a + b, lo, hi)
  {
    forall i, j | 0 <= i < j < |a + b|
      ensures Rank((a + b)[i].site) < Rank((a + b)[j].site)
    {
      if j < |a| {
        assert (a + b)[i] == a[i] && (a + b)[j] == a[j];
      } else if i < |a| {
        assert (a + b)[i] == a[i] && (a + b)[j] == b[j - |a|];
      } else {
        assert (a + b)[i] == b[i - |a|] && (a + b)[j] == b[j - |a|];
      }
    }
    forall i | 0 <= i < |a + b|
      ensures lo <= Rank((a + b)[i].site) < hi
    {
      if i < |a| {
        assert (a + b)[i] == a[i];
      } else {
        assert (a + b)[i] == b[i - |a|];
      }
    }
  }

  lemma SegmentRanks(s: Settings, status: nat, nosniffType: bool)
    ensures Increasing(NoSniffCalls(status, nosniffType)) && RanksIn(NoSniffCalls(status, nosniffType), 0, 1)
    ensures Increasing(XssCalls(s, status)) && RanksIn(XssCalls(s, status), 1, 2)
    ensures Increasing(FrameCalls(s, status)) && RanksIn(FrameCalls(s, status), 2, 3)
    ensures Increasing(Clears) && RanksIn(Clears, 3, 5)
  {
  }

  /** The calls run in the order of lines 148-194, each site at most
      once, and the two clears come last. */
  lemma PlanOrder(s: Settings, status: nat, nosniffType: bool)
    ensures var r := Plan(s, status, nosniffType);
      && (!s.enable ==> r == [])
      && (s.enable ==> |r| >= 2 && r[|r| - 2..] == Clears)
      && Increasing(r)
  {
    if s.enable {
      var n, x, f := NoSniffCalls(status, nosniffType), XssCalls(s, status), FrameCalls(s, status);
      var r := Plan(s, status, nosniffType);
      assert r == ((n + x) + f) + Clears;
      SegmentRanks(s, status, nosniffType);
      IncreasingConcat(n, x, 0, 1, 2);
      IncreasingConcat(n + x, f, 0, 2, 3);
      IncreasingConcat(n + x + f, Clears, 0, 3, 5);
      assert r[|r| - 2..] == Clears;
    }
  }

  /** The values of lines 151-194: nosniff; "1", "1; mode=block" or "0"
      for on, block and off; SAMEORIGIN or DENY; and the empty value, which
      asks for suppression, exactly for the two clears. */
  lemma PlanValues(s: Settings, status: nat, nosniffType: bool, i: nat)
    requires i < |Plan(s, status, nosniffType)|
    ensures var c := Plan(s, status, nosniffType)[i];
      && (c.site == NoSniff ==> c.key == "X-Content-Type-Options" && c.value == "nosniff")
      && (c.site == XssProtection ==>
            && c.key == "X-XSS-Protection"
            && (s.xss == XssOn ==> c.value == "1")
            && (s.xss == XssBlock ==> c.value == "1; mode=block")
            && (s.xss == XssOff ==> c.value == "0"))
      && (c.site == FrameOptions ==>
            && c.key == "X-Frame-Options"
            && (s.fo == FrameSameOrigin ==> c.value == "SAMEORIGIN")
            && (s.fo == FrameDeny ==> c.value == "DENY"))
      && (c.site == PoweredBy ==> c.key == "x-powered-by")
      && (c.site == ServerToken ==> c.key == "server")
      && (c.value == "" <==> c.site == PoweredBy || c.site == ServerToken)
  {
    var n, x, f := NoSniffCalls(status, nosniffType), XssCalls(s, status), FrameCalls(s, status);
    var r := Plan(s, status, nosniffType);
    assert r == ((n + x) + f) + Clears;
    if i < |n| {
      assert r[i] == n[i];
    } else if i < |n| + |x| {
      assert r[i] == x[i - |n|];
    } else if i < |n| + |x| + |f| {
      assert r[i] == f[i - |n| - |x|];
    } else {
      assert r[i] == Clears[i - |n| - |x| - |f|];
    }
  }

  /** The header list after the calls of `plan`, each made on the list
      the previous one left, whatever that one returned. */
  function ApplyPlan(parts: Parts, nalloc: nat, plan: seq<Call>, alloc: Site -> Alloc): (r: Parts)
    requires WellFormed(parts, nalloc)
    ensures WellFormed(r, nalloc)
    decreases |plan|
  {
    if |plan| == 0 then parts
    else
      var c := plan[|plan| - 1];
      SetBySearchSpec(ApplyPlan(parts, nalloc, plan[..|plan| - 1], alloc), nalloc, c.key, c.value, alloc(c.site)).parts
  }

  /** The return value of each call is ignored: the first call runs on
      the list as it is and every later call runs on what it left, even
      when it returned NGX_ERROR. */
  lemma {:induction false} ApplyPlanFirst(parts: Parts, nalloc: nat, c: Call, rest: seq<Call>, alloc: Site -> Alloc)
    requires WellFormed(parts, nalloc)
    ensures var first := SetBySearchSpec(parts, nalloc, c.key, c.value, alloc(c.site));
      ApplyPlan(parts, nalloc, [c] + rest, alloc) == ApplyPlan(first.parts, nalloc, rest, alloc)
  {
    if |rest| > 0 {
      assert ([c] + rest)[..|rest|] == [c] + rest[..|rest| - 1];
      ApplyPlanFirst(parts, nalloc, c, rest[..|rest| - 1], alloc);
    } else {
      assert ([c] + rest)[..0] == [];
    }
  }

  /** One more call extends the fold by one SetBySearchSpec step. */
  lemma ApplyPlanSnoc(parts: Parts, nalloc: nat, plan: seq<Call>, c: Call, alloc: Site -> Alloc)
    requires WellFormed(parts, nalloc)
    ensures ApplyPlan(parts, nalloc, plan + [c], alloc)
         == SetBySearchSpec(ApplyPlan(parts, nalloc, plan, alloc), nalloc, c.key, c.value, alloc(c.site)).parts
  {
    assert (plan + [c])[..|plan|] == plan;
  }

  lemma PlanEnabled(s: Settings, status: nat, nosniffType: bool)
    requires s.enable
    ensures Plan(s, status, nosniffType)
         == NoSniffCalls(status, nosniffType) + XssCalls(s, status) + FrameCalls(s, status) + [Clears[0]] + [Clears[1]]
  {
  }

  /** One call of the filter, made on the list the earlier calls left. */
  method Step(list: HeaderList, c: Call, alloc: Site -> Alloc, ghost start: Parts, ghost done: seq<Call>)
    requires list.Valid() && WellFormed(start, list.nalloc)
    requires list.parts == ApplyPlan(start, list.nalloc, done, alloc)
    modifies list
    ensures list.Valid()
    ensures list.parts == ApplyPlan(start, list.nalloc, done + [c], alloc)
  {
    var rc := list.SetBySearch(c.key, c.value, alloc(c.site));
    ApplyPlanSnoc(start, list.nalloc, done, c, alloc);
  }

  /** Lines 148-183: the three headers the module sets, each on its own
      condition. */
  method SetSecurityHeaders(list: HeaderList, s: Settings, status: nat, nosniffType: bool, alloc: Site -> Alloc)
    requires list.Valid()
    modifies list
    ensures list.Valid()
    ensures list.parts == ApplyPlan(old(list.parts), list.nalloc,
                                    NoSniffCalls(status, nosniffType) + XssCalls(s, status) + FrameCalls(s, status), alloc)
  {
    ghost var start := list.parts;
    ghost var done: seq<Call> := [];

    if status == HttpOk && nosniffType {
      var c := Call(NoSniff, "X-Content-Type-Options", "nosniff");
      Step(list, c, alloc, start, done);
      done := done + [c];
    }
    assert done == NoSniffCalls(status, nosniffType);

    if status != HttpNotModified && s.xss != XssOmit {
      var c := Call(XssProtection, "X-XSS-Protection", XssValue(s.xss));
      Step(list, c, alloc, start, done);
      done := done + [c];
    }
    assert done == NoSniffCalls(status, nosniffType) + XssCalls(s, status);

    if status != HttpNotModified && s.fo != FrameOmit {
      var c := Call(FrameOptions, "X-Frame-Options", FrameValue(s.fo));
      Step(list, c, alloc, start, done);
      done := done + [c];
    }
  }

  /** The filter; `alloc` gives what the pool does at each call site.
      The call of the next header filter is not modelled. */
  method Filter(list: HeaderList, s: Settings, status: nat, nosniffType: bool, alloc: Site -> Alloc)
    requires list.Valid()
    modifies list
    ensures list.Valid()
    ensures list.parts == ApplyPlan(old(list.parts), list.nalloc, Plan(s, status, nosniffType), alloc)
    ensures !s.enable ==> list.parts == old(list.parts)
  {
    if !s.enable {
      return;
    }
    ghost var start := list.parts;
    SetSecurityHeaders(list, s, status, nosniffType, alloc);
    ghost var done := NoSniffCalls(status, nosniffType) + XssCalls(s, status) + FrameCalls(s, status);

    // lines 186-194: x-powered-by and server are cleared on every response
    Step(list, Clears[0], alloc, start, done);
    done := done + [Clears[0]];
    Step(list, Clears[1], alloc, start, done);
    done := done + [Clears[1]];

    PlanEnabled(s, status, nosniffType);
  }

  /** With all defaults merged from unset configurations and the module
      switched on, a 200 response whose type is in the nosniff set gets
      nosniff, "1; mode=block", SAMEORIGIN and the two clears. */
  lemma DefaultsOnOk()
    ensures var s := Resolve(MergeLocConf(UnsetConf, LocConf(Some(true), None, None)));
      Plan(s, HttpOk, true) == [
        Call(NoSniff, "X-Content-Type-Options", "nosniff"),
        Call(XssProtection, "X-XSS-Protection", "1; mode=block"),
        Call(FrameOptions, "X-Frame-Options", "SAMEORIGIN"),
        Call(PoweredBy, "x-powered-by", ""),
        Call(ServerToken, "server", "")]
  {
  }

  /** A 304 response only gets the two clears. */
  lemma NotModifiedOnlyClears(s: Settings, nosniffType: bool)
    requires s.enable
    ensures Plan(s, HttpNotModified, nosniffType) ==
      [Call(PoweredBy, "x-powered-by", ""), Call(ServerToken, "server", "")]
  {
  }
}
