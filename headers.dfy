/** The response header list r->headers_out.headers and the routine
    ngx_set_headers_out_by_search that searches it and sets one header.

    The list is nginx's ngx_list_t: a chain of parts, each an array of
    ngx_table_elt_t with room for `nalloc` elements. Here the chain is a
    sequence of parts and each part a sequence of elements; a position is
    (part, index). An element whose hash is 0 is soft-deleted: it stays in
    the list but lookups skip it and it is not sent. */
module Headers {
  import opened Wrappers
  import opened Ascii

  /** One ngx_table_elt_t: hash, key, value and lowcase_key (a pointer
      that may be NULL). */
  datatype Element = Element(hash: nat, key: string, value: string, lowcaseKey: Option<string>)

  datatype Pos = Pos(part: nat, index: nat)

  /** NGX_OK / NGX_ERROR */
  datatype Rc = Ok | Error

  /** What the pool does when the routine allocates: a new list part,
      needed only when the last part is full, and the lowcase_key buffer. */
  datatype Alloc = Alloc(partOk: bool, lowcaseOk: bool)

  datatype Pushed = Pushed(slot: Option<Pos>, parts: seq<seq<Element>>)
  datatype Outcome = Outcome(rc: Rc, parts: seq<seq<Element>>)

  type Parts = seq<seq<Element>>

  /** The contents of a slot handed out by ngx_list_push before anything
      is written to it (pool memory is not initialised; every field is
      overwritten before the routine returns). */
  const Unset: Element := Element(0, "", "", None)

  /** The shape ngx_list_init and ngx_list_push maintain: at least one
      part, every part but the last full, and no empty part after the
      first. */
  predicate WellFormed(parts: Parts, nalloc: nat) {
    && nalloc > 0
    && |parts| > 0
    && (forall q :: 0 <= q < |parts| - 1 ==> |parts[q]| == nalloc)
    && |parts[|parts| - 1]| <= nalloc
    && (forall q :: 0 < q < |parts| ==> |parts[q]| > 0)
  }

  predicate ValidPos(parts: Parts, pos: Pos) {
    pos.part < |parts| && pos.index < |parts[pos.part]|
  }

  /** An element the search stops at: not soft-deleted, a key of the same
      length, and ngx_strcasecmp reporting equality. */
  predicate Matches(e: Element, key: string) {
    e.hash != 0 && |key| == |e.key| && StrCaseCmp(key, e.key) == 0
  }

  /** No element strictly before position (p, i) in list order matches. */
  predicate NoMatchBefore(parts: Parts, key: string, p: nat, i: nat) {
    forall q, j :: 0 <= q < |parts| && 0 <= j < |parts[q]| && (q < p || (q == p && j < i)) ==>
      !Matches(parts[q][j], key)
  }

  /** No element of the list matches. */
  predicate NoMatch(parts: Parts, key: string) {
    forall q, j :: 0 <= q < |parts| && 0 <= j < |parts[q]| ==> !Matches(parts[q][j], key)
  }

  // ---------------------------------------------------------------------
  // The search, as a specification

  /** The first matching index of `s` at or after `from`. */
  function FirstIndex(s: seq<Element>, key: string, from: nat): (r: Option<nat>)
    decreases |s| - from
    ensures r.Some? ==> from <= r.value < |s| && Matches(s[r.value], key)
    ensures r.Some? ==> forall j :: from <= j < r.value ==> !Matches(s[j], key)
    ensures r.None? ==> forall j :: from <= j < |s| ==> !Matches(s[j], key)
  {
    if from >= |s| then None
    else if Matches(s[from], key) then Some(from)
    else FirstIndex(s, key, from + 1)
  }

  /** The first matching position of the list in list order, looking at
      the parts from `from` on. */
  function FirstMatchFrom(parts: Parts, key: string, from: nat): (r: Option<Pos>)
    decreases |parts| - from
    ensures r.Some? ==> from <= r.value.part && ValidPos(parts, r.value)
    ensures r.Some? ==> Matches(parts[r.value.part][r.value.index], key)
    ensures r.Some? ==>
      forall q, j ::
        (from <= q < |parts| && 0 <= j < |parts[q]| && (q < r.value.part || (q == r.value.part && j < r.value.index)))
        ==> !Matches(parts[q][j], key)
    ensures r.None? ==> forall q, j :: from <= q < |parts| && 0 <= j < |parts[q]| ==>
                          !Matches(parts[q][j], key)
  {
    if from >= |parts| then None
    else match FirstIndex(parts[from], key, 0)
      case Some(i) => Some(Pos(from, i))
      case None => FirstMatchFrom(parts, key, from + 1)
  }

  function FirstMatch(parts: Parts, key: string): Option<Pos> {
    FirstMatchFrom(parts, key, 0)
  }

  /** A matching position with no match before it is the first match. */
  lemma FirstMatchIs(parts: Parts, key: string, p: nat, i: nat)
    requires ValidPos(parts, Pos(p, i)) && Matches(parts[p][i], key)
    requires NoMatchBefore(parts, key, p, i)
    ensures FirstMatch(parts, key) == Some(Pos(p, i))
  {
  }

  lemma FirstIndexIs(s: seq<Element>, key: string, k: nat)
    requires k < |s| && Matches(s[k], key)
    requires forall j :: 0 <= j < k ==> !Matches(s[j], key)
    ensures FirstIndex(s, key, 0) == Some(k)
  {
  }

  // ---------------------------------------------------------------------
  // The list in list order, one element after the other

  function FlattenUpTo(parts: Parts, n: nat): seq<Element>
    requires n <= |parts|
  {
    if n == 0 then [] else FlattenUpTo(parts, n - 1) + parts[n - 1]
  }

  /** Every element of every part, in the order the search visits them. */
  function Flatten(parts: Parts): seq<Element> {
    FlattenUpTo(parts, |parts|)
  }

  /** The number of elements held by the parts before part p. */
  function Offset(parts: Parts, p: nat): nat
    requires p <= |parts|
  {
    |FlattenUpTo(parts, p)|
  }

  function FlatIndex(parts: Parts, pos: Pos): nat
    requires pos.part <= |parts|
  {
    Offset(parts, pos.part) + pos.index
  }

  lemma {:induction false} FlattenPrefix(parts: Parts, m: nat, n: nat)
    requires m <= n <= |parts|
    ensures Offset(parts, m) <= Offset(parts, n)
    ensures FlattenUpTo(parts, m) == FlattenUpTo(parts, n)[..Offset(parts, m)]
    ensures m < n ==> Offset(parts, m) + |parts[m]| <= Offset(parts, n)
    decreases n
  {
    if m < n {
      FlattenPrefix(parts, m, n - 1);
      assert FlattenUpTo(parts, n) == FlattenUpTo(parts, n - 1) + parts[n - 1];
      if m == n - 1 {
      } else {
        FlattenPrefix(parts, m + 1, n - 1);
        assert FlattenUpTo(parts, m + 1) == FlattenUpTo(parts, m) + parts[m];
      }
    }
  }

  /** Position (p, i) sits at flat index Offset(p) + i. */
  lemma FlattenAt(parts: Parts, p: nat, i: nat)
    requires ValidPos(parts, Pos(p, i))
    ensures FlatIndex(parts, Pos(p, i)) < |Flatten(parts)|
    ensures Flatten(parts)[FlatIndex(parts, Pos(p, i))] == parts[p][i]
  {
    FlattenPrefix(parts, p + 1, |parts|);
    assert FlattenUpTo(parts, p + 1) == FlattenUpTo(parts, p) + parts[p];
  }

  lemma {:induction false} LocateUpTo(parts: Parts, n: nat, k: nat) returns (pos: Pos)
    requires n <= |parts| && k < |FlattenUpTo(parts, n)|
    ensures pos.part < n && ValidPos(parts, pos) && FlatIndex(parts, pos) == k
  {
    assert FlattenUpTo(parts, n) == FlattenUpTo(parts, n - 1) + parts[n - 1];
    if k < |FlattenUpTo(parts, n - 1)| {
      pos := LocateUpTo(parts, n - 1, k);
    } else {
      pos := Pos(n - 1, k - |FlattenUpTo(parts, n - 1)|);
    }
  }

  /** Every flat index belongs to exactly one position. */
  lemma Locate(parts: Parts, k: nat) returns (pos: Pos)
    requires k < |Flatten(parts)|
    ensures ValidPos(parts, pos) && FlatIndex(parts, pos) == k
  {
    pos := LocateUpTo(parts, |parts|, k);
  }

  /** Flat order is list order. */
  lemma FlatOrder(parts: Parts, a: Pos, b: Pos)
    requires ValidPos(parts, a) && ValidPos(parts, b)
    ensures FlatIndex(parts, a) < FlatIndex(parts, b) <==>
            (a.part < b.part || (a.part == b.part && a.index < b.index))
  {
    if a.part < b.part {
      FlattenPrefix(parts, a.part, b.part);
    } else if b.part < a.part {
      FlattenPrefix(parts, b.part, a.part);
    }
  }

  lemma {:induction false} FlattenUpToSame(a: Parts, b: Parts, n: nat)
    requires n <= |a| && n <= |b| && a[..n] == b[..n]
    ensures FlattenUpTo(a, n) == FlattenUpTo(b, n)
  {
    if n > 0 {
      assert a[n - 1] == a[..n][n - 1] == b[..n][n - 1] == b[n - 1];
      assert a[..n - 1] == a[..n][..n - 1];
      assert b[..n - 1] == b[..n][..n - 1];
      FlattenUpToSame(a, b, n - 1);
    }
  }

  // ---------------------------------------------------------------------
  // Writing a slot and growing the list

  function WriteAt(parts: Parts, pos: Pos, e: Element): (r: Parts)
    requires ValidPos(parts, pos)
    ensures |r| == |parts| && forall q :: 0 <= q < |r| ==> |r[q]| == |parts[q]|
    ensures r[pos.part][pos.index] == e
    ensures forall q, j :: 0 <= q < |parts| && 0 <= j < |parts[q]| && Pos(q, j) != pos ==>
              r[q][j] == parts[q][j]
  {
    parts[pos.part := parts[pos.part][pos.index := e]]
  }

  lemma WriteAtTwice(parts: Parts, pos: Pos, e1: Element, e2: Element)
    requires ValidPos(parts, pos)
    ensures WriteAt(WriteAt(parts, pos, e1), pos, e2) == WriteAt(parts, pos, e2)
  {
    assert parts[pos.part][pos.index := e1][pos.index := e2] == parts[pos.part][pos.index := e2];
  }

  lemma {:induction false} FlattenWriteUpTo(parts: Parts, pos: Pos, e: Element, n: nat)
    requires ValidPos(parts, pos) && n <= |parts|
    ensures pos.part < n ==>
      FlatIndex(parts, pos) < |FlattenUpTo(parts, n)| &&
      FlattenUpTo(WriteAt(parts, pos, e), n) == FlattenUpTo(parts, n)[FlatIndex(parts, pos) := e]
    ensures n <= pos.part ==> FlattenUpTo(WriteAt(parts, pos, e), n) == FlattenUpTo(parts, n)
  {
    var w := WriteAt(parts, pos, e);
    if n > 0 {
      FlattenWriteUpTo(parts, pos, e, n - 1);
      assert FlattenUpTo(w, n) == FlattenUpTo(w, n - 1) + w[n - 1];
      assert FlattenUpTo(parts, n) == FlattenUpTo(parts, n - 1) + parts[n - 1];
      if n - 1 == pos.part {
        assert Offset(parts, pos.part) == |FlattenUpTo(parts, n - 1)|;
      } else if pos.part < n - 1 {
        assert w[n - 1] == parts[n - 1];
      }
    }
  }

  /** Writing one slot changes exactly one element of the flat list. */
  lemma FlattenWrite(parts: Parts, pos: Pos, e: Element)
    requires ValidPos(parts, pos)
    ensures FlatIndex(parts, pos) < |Flatten(parts)|
    ensures Flatten(WriteAt(parts, pos, e)) == Flatten(parts)[FlatIndex(parts, pos) := e]
  {
    FlattenWriteUpTo(parts, pos, e, |parts|);
  }

  /** Growing the last part or adding a part appends to the flat list. */
  lemma FlattenGrow(parts: Parts, e: Element)
    requires |parts| > 0
    ensures Flatten(parts[|parts| - 1 := parts[|parts| - 1] + [e]]) == Flatten(parts) + [e]
    ensures Flatten(parts + [[e]]) == Flatten(parts) + [e]
  {
    var n := |parts|;
    var g := parts[n - 1 := parts[n - 1] + [e]];
    assert g[..n - 1] == parts[..n - 1];
    FlattenUpToSame(g, parts, n - 1);
    var a := parts + [[e]];
    assert a[..n] == parts[..n];
    FlattenUpToSame(a, parts, n);
  }

  predicate LastFull(parts: Parts, nalloc: nat)
    requires |parts| > 0
  {
    |parts[|parts| - 1]| >= nalloc
  }

  /** ngx_list_push: hands out the next slot of the last part, or of a
      freshly allocated part when the last one is full; that allocation
      is the only way it fails, and a failure leaves the list alone. */
  function PushSpec(parts: Parts, nalloc: nat, partOk: bool): (r: Pushed)
    requires WellFormed(parts, nalloc)
    ensures WellFormed(r.parts, nalloc)
    ensures r.slot.None? <==> LastFull(parts, nalloc) && !partOk
    ensures r.slot.None? ==> r.parts == parts
    ensures r.slot.Some? ==>
      && ValidPos(r.parts, r.slot.value)
      && Flatten(r.parts) == Flatten(parts) + [Unset]
      && FlatIndex(r.parts, r.slot.value) == |Flatten(parts)|
      && r.parts[r.slot.value.part][r.slot.value.index] == Unset
    ensures r.slot.Some? ==>
      forall q, j :: 0 <= q < |parts| && 0 <= j < |parts[q]| ==>
        q < |r.parts| && j < |r.parts[q]| && r.parts[q][j] == parts[q][j] && Pos(q, j) != r.slot.value
    ensures r.slot.Some? ==>
      forall q, j :: 0 <= q < |r.parts| && 0 <= j < |r.parts[q]| ==>
        (q < |parts| && j < |parts[q]|) || Pos(q, j) == r.slot.value
  {
    var last := |parts| - 1;
    FlattenGrow(parts, Unset);
    if |parts[last]| < nalloc then
      var g := parts[last := parts[last] + [Unset]];
      FlattenAt(g, last, |parts[last]|);
      assert Offset(g, last) + |parts[last]| == |Flatten(parts)| by {
        assert g[..last] == parts[..last];
        FlattenUpToSame(g, parts, last);
        assert FlattenUpTo(parts, last + 1) == FlattenUpTo(parts, last) + parts[last];
      }
      Pushed(Some(Pos(last, |parts[last]|)), g)
    else if partOk then
      var g := parts + [[Unset]];
      FlattenAt(g, |parts|, 0);
      assert g[..|parts|] == parts;
      FlattenUpToSame(g, parts, |parts|);
      Pushed(Some(Pos(|parts|, 0)), g)
    else
      Pushed(None, parts)
  }

  /** The element lines 311-324 leave in the slot: the given key and
      value, hash 0 for an empty value (suppressed) and 1 otherwise, and
      the lower-cased key unless its buffer could not be allocated. */
  function Written(key: string, value: string, lowcaseOk: bool): (e: Element)
    ensures e.key == key && e.value == value
    ensures e.hash <= 1 && (e.hash == 0 <==> |value| == 0)
    ensures lowcaseOk ==> e.lowcaseKey.Some? && |e.lowcaseKey.value| == |key|
    ensures lowcaseOk ==> forall i :: 0 <= i < |key| ==> e.lowcaseKey.value[i] == ToLower(key[i])
    ensures !lowcaseOk ==> e.lowcaseKey.None?
  {
    Element(if |value| == 0 then 0 else 1, key, value, if lowcaseOk then Some(Lower(key)) else None)
  }

  /** Lines 305-326 once the slot `h` is chosen: push when there is none,
      give up on a failed push, otherwise write the slot. */
  function StoreSpec(parts: Parts, nalloc: nat, h: Option<Pos>, key: string, value: string, a: Alloc): (o: Outcome)
    requires WellFormed(parts, nalloc) && (h.Some? ==> ValidPos(parts, h.value))
    ensures WellFormed(o.parts, nalloc)
  {
    var pushed := if h.Some? then Pushed(h, parts) else PushSpec(parts, nalloc, a.partOk);
    match pushed.slot
    case None => Outcome(Error, parts)
    case Some(pos) =>
      Outcome(if a.lowcaseOk then Ok else Error, WriteAt(pushed.parts, pos, Written(key, value, a.lowcaseOk)))
  }

  /** The slot the routine writes when an active match exists: `h = hi`
      keeps the first element of the part holding the match, not the
      matching element itself. */
  function Target(parts: Parts, key: string): (t: Option<Pos>)
    ensures t.Some? <==> FirstMatch(parts, key).Some?
    ensures t.Some? ==>
      ValidPos(parts, t.value) && t.value.index == 0 && t.value.part == FirstMatch(parts, key).value.part
  {
    match FirstMatch(parts, key)
    case None => None
    case Some(m) => Some(Pos(m.part, 0))
  }

  /** ngx_set_headers_out_by_search as written. */
  function SetBySearchSpec(parts: Parts, nalloc: nat, key: string, value: string, a: Alloc): Outcome
    requires WellFormed(parts, nalloc)
  {
    StoreSpec(parts, nalloc, Target(parts, key), key, value, a)
  }

  /** The routine with line 302 reading `h = &hi[i]`: the matching
      element itself is written. */
  function SetBySearchFixedSpec(parts: Parts, nalloc: nat, key: string, value: string, a: Alloc): Outcome
    requires WellFormed(parts, nalloc)
  {
    StoreSpec(parts, nalloc, FirstMatch(parts, key), key, value, a)
  }

  // ---------------------------------------------------------------------
  // The list object

  class HeaderList {
    var parts: Parts
    const nalloc: nat

    predicate Valid()
      reads this
    {
      WellFormed(parts, nalloc)
    }

    /** ngx_list_init: one empty part with room for n elements. */
    constructor (n: nat)
      requires n > 0
      ensures Valid() && nalloc == n && parts == [[]]
    {
      parts := [[]];
      nalloc := n;
    }

    /** The loop of lines 276-304: walk every part in order, skip
        soft-deleted elements, stop at the first element whose key has
        the same length and compares equal ignoring case. */
    method FindActive(key: string) returns (m: Option<Pos>)
      requires Valid()
      ensures m == FirstMatch(parts, key)
    {
      var p, i := 0, 0;
      while true
        invariant p < |parts| && i <= |parts[p]|
        invariant NoMatchBefore(parts, key, p, i)
        decreases |parts| - p, |parts[p]| - i
      {
        if i >= |parts[p]| {
          if p + 1 == |parts| {
            assert NoMatch(parts, key);
            return None;
          }
          p, i := p + 1, 0;
        }
        if parts[p][i].hash != 0 && |key| == |parts[p][i].key| && StrCaseCmp(key, parts[p][i].key) == 0 {
          FirstMatchIs(parts, key, p, i);
          return Some(Pos(p, i));
        }
        i := i + 1;
      }
    }

    /** ngx_list_push; `partOk` says whether a new part can be allocated. */
    method Push(partOk: bool) returns (slot: Option<Pos>)
      requires Valid()
      modifies this
      ensures Valid()
      ensures Pushed(slot, parts) == PushSpec(old(parts), nalloc, partOk)
    {
      var last := |parts| - 1;
      if |parts[last]| < nalloc {
        slot := Some(Pos(last, |parts[last]|));
        parts := parts[last := parts[last] + [Unset]];
      } else if partOk {
        slot := Some(Pos(|parts|, 0));
        parts := parts + [[Unset]];
      } else {
        slot := None;
      }
    }

    /** Lines 305-326: push when no slot was found, then write key, value
        and hash, then allocate and fill lowcase_key. */
    method Store(h: Option<Pos>, key: string, value: string, a: Alloc) returns (rc: Rc)
      requires Valid() && (h.Some? ==> ValidPos(parts, h.value))
      modifies this
      ensures Valid()
      ensures Outcome(rc, parts) == StoreSpec(old(parts), nalloc, h, key, value, a)
    {
      var slot := h;
      if slot.None? {
        slot := Push(a.partOk);
      }
      if slot.None? {
        return Error;
      }
      var pos := slot.value;
      ghost var pushed := parts;
      var e := parts[pos.part][pos.index];
      e := e.(key := key, value := value, hash := if |value| == 0 then 0 else 1);
      parts := WriteAt(parts, pos, e);
      if !a.lowcaseOk {
        parts := WriteAt(parts, pos, e.(lowcaseKey := None));
        WriteAtTwice(pushed, pos, e, Written(key, value, false));
        return Error;
      }
      parts := WriteAt(parts, pos, e.(lowcaseKey := Some(Lower(key))));
      WriteAtTwice(pushed, pos, e, Written(key, value, true));
      return Ok;
    }

    /** ngx_set_headers_out_by_search as written. */
    method SetBySearch(key: string, value: string, a: Alloc) returns (rc: Rc)
      requires Valid()
      modifies this
      ensures Valid()
      ensures Outcome(rc, parts) == SetBySearchSpec(old(parts), nalloc, key, value, a)
    {
      var m := FindActive(key);
      var h: Option<Pos> := None;
      if m.Some? {
        h := Some(Pos(m.value.part, 0));  // h = hi: the part's first element
      }
      rc := Store(h, key, value, a);
    }

    /** The routine with the matching element itself as the slot. */
    method SetBySearchFixed(key: string, value: string, a: Alloc) returns (rc: Rc)
      requires Valid()
      modifies this
      ensures Valid()
      ensures Outcome(rc, parts) == SetBySearchFixedSpec(old(parts), nalloc, key, value, a)
    {
      var h := FindActive(key);
      rc := Store(h, key, value, a);
    }
  }
}
