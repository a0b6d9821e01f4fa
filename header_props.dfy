/** What ngx_set_headers_out_by_search does to the header list, stated
    over the list in list order (Headers.Flatten) and over positions. */
module HeaderProps {
  import opened Wrappers
  import opened Ascii
  import opened Headers

  /** The search visits every element of every part in list order: its
      result is the first element of the flattened list that is active
      and has a matching key, and it finds none exactly when there is
      none. */
  lemma SearchInListOrder(parts: Parts, key: string)
    ensures FirstMatch(parts, key).None? <==> FirstIndex(Flatten(parts), key, 0).None?
    ensures FirstMatch(parts, key).Some? ==>
      FirstIndex(Flatten(parts), key, 0) == Some(FlatIndex(parts, FirstMatch(parts, key).value))
  {
    var f := Flatten(parts);
    var r := FirstMatch(parts, key);
    if r.Some? {
      var m := r.value;
      var k := FlatIndex(parts, m);
      FlattenAt(parts, m.part, m.index);
      forall j | 0 <= j < k ensures !Matches(f[j], key) {
        var pos := Locate(parts, j);
        FlatOrder(parts, pos, m);
        FlattenAt(parts, pos.part, pos.index);
      }
      FirstIndexIs(f, key, k);
    } else {
      forall j | 0 <= j < |f| ensures !Matches(f[j], key) {
        var pos := Locate(parts, j);
        FlattenAt(parts, pos.part, pos.index);
      }
    }
  }

  /** Lines 305-310 and 311-326 when no active element matches: if the
      push fails nothing changes and the result is NGX_ERROR; otherwise
      exactly one element is appended at the end of the list, every
      earlier element is unchanged, and the result is NGX_OK unless the
      lowcase_key buffer could not be allocated. */
  lemma AppendsWhenNoMatch(parts: Parts, nalloc: nat, key: string, value: string, a: Alloc)
    requires WellFormed(parts, nalloc) && FirstMatch(parts, key).None?
    ensures var o := SetBySearchSpec(parts, nalloc, key, value, a);
      if LastFull(parts, nalloc) && !a.partOk then
        o.rc == Error && o.parts == parts
      else
        && Flatten(o.parts) == Flatten(parts) + [Written(key, value, a.lowcaseOk)]
        && (o.rc == Ok <==> a.lowcaseOk)
  {
    var pushed := PushSpec(parts, nalloc, a.partOk);
    if pushed.slot.Some? {
      var pos := pushed.slot.value;
      FlattenWrite(pushed.parts, pos, Written(key, value, a.lowcaseOk));
    }
  }

  /** Lines 302, 305 and 311-317 when an active match exists: the list
      keeps its length and its shape, and exactly one element changes,
      element 0 of the part holding the match. */
  lemma OverwritesPartHead(parts: Parts, nalloc: nat, key: string, value: string, a: Alloc)
    requires WellFormed(parts, nalloc) && FirstMatch(parts, key).Some?
    ensures var o := SetBySearchSpec(parts, nalloc, key, value, a);
      var m := FirstMatch(parts, key).value;
      && |o.parts| == |parts| && (forall q :: 0 <= q < |parts| ==> |o.parts[q]| == |parts[q]|)
      && Offset(parts, m.part) < |Flatten(o.parts)| == |Flatten(parts)|
      && Flatten(o.parts) == Flatten(parts)[Offset(parts, m.part) := Written(key, value, a.lowcaseOk)]
      && (o.rc == Ok <==> a.lowcaseOk)
  {
    var m := FirstMatch(parts, key).value;
    FlattenWrite(parts, Pos(m.part, 0), Written(key, value, a.lowcaseOk));
  }

  /** The slot written on a match is the matching element only when the
      match is element 0 of its part. Otherwise the written slot held an
      element that did not match (another header, or a soft-deleted
      one), and the matching element itself is left as it was. */
  lemma TargetIsMatchOnlyAtPartHead(parts: Parts, nalloc: nat, key: string, value: string, a: Alloc)
    requires WellFormed(parts, nalloc) && FirstMatch(parts, key).Some?
    ensures var m := FirstMatch(parts, key).value;
      Target(parts, key) == Some(m) <==> m.index == 0
    ensures var m := FirstMatch(parts, key).value;
      var o := SetBySearchSpec(parts, nalloc, key, value, a);
      m.index != 0 ==>
        && !Matches(parts[m.part][0], key)
        && o.parts[m.part][m.index] == parts[m.part][m.index]
  {
  }

  /** Lines 306-310 and 319-322: the result is NGX_ERROR exactly when the
      push fails or the lowcase_key allocation fails. A failed push
      writes nothing; a failed lowcase_key allocation leaves key, value
      and hash written and lowcase_key NULL in the chosen slot: element 0
      of the matching part, or the element appended at the end. */
  lemma ErrorCases(parts: Parts, nalloc: nat, key: string, value: string, a: Alloc)
    requires WellFormed(parts, nalloc)
    ensures var o := SetBySearchSpec(parts, nalloc, key, value, a);
      var pushFails := FirstMatch(parts, key).None? && LastFull(parts, nalloc) && !a.partOk;
      && (o.rc == Error <==> pushFails || !a.lowcaseOk)
      && (pushFails ==> o.parts == parts)
      && (!a.lowcaseOk && FirstMatch(parts, key).Some? ==>
            o.parts[FirstMatch(parts, key).value.part][0] == Element(if |value| == 0 then 0 else 1, key, value, None))
      && (!pushFails && !a.lowcaseOk && FirstMatch(parts, key).None? ==>
            && |Flatten(o.parts)| == |Flatten(parts)| + 1
            && Flatten(o.parts)[|Flatten(parts)|] == Element(if |value| == 0 then 0 else 1, key, value, None))
  {
    if FirstMatch(parts, key).None? {
      AppendsWhenNoMatch(parts, nalloc, key, value, a);
    }
  }

  /** A written element with a non-empty value is found again by the
      search: it is active and its key matches itself. */
  lemma WrittenMatches(key: string, value: string, ok: bool)
    requires |value| > 0
    ensures Matches(Written(key, value, ok), key)
  {
    StrCaseCmpRefl(key);
  }

  /** After a call that sets a non-empty value and returns NGX_OK, the
      search for the same key stops at the slot just written, which holds
      the given value. */
  lemma SetThenFind(parts: Parts, nalloc: nat, key: string, value: string, a: Alloc)
    requires WellFormed(parts, nalloc) && |value| > 0
    requires SetBySearchSpec(parts, nalloc, key, value, a).rc == Ok
    ensures var o := SetBySearchSpec(parts, nalloc, key, value, a);
      var f := FirstMatch(o.parts, key);
      f.Some? && o.parts[f.value.part][f.value.index].value == value
  {
    var o := SetBySearchSpec(parts, nalloc, key, value, a);
    var w := Written(key, value, a.lowcaseOk);
    WrittenMatches(key, value, a.lowcaseOk);
    var t := Target(parts, key);
    if t.Some? {
      var p := t.value.part;
      assert NoMatchBefore(o.parts, key, p, 0) by {
        forall q, j | 0 <= q < |o.parts| && 0 <= j < |o.parts[q]| && (q < p || (q == p && j < 0))
          ensures !Matches(o.parts[q][j], key)
        {
          assert o.parts[q][j] == parts[q][j];
        }
      }
      FirstMatchIs(o.parts, key, p, 0);
    } else {
      var pushed := PushSpec(parts, nalloc, a.partOk);
      var pos := pushed.slot.value;
      assert NoMatchBefore(o.parts, key, pos.part, pos.index) by {
        forall q, j | 0 <= q < |o.parts| && 0 <= j < |o.parts[q]| && (q < pos.part || (q == pos.part && j < pos.index))
          ensures !Matches(o.parts[q][j], key)
        {
          assert o.parts[q][j] == pushed.parts[q][j];
          assert q < |parts| && j < |parts[q]|;
          assert pushed.parts[q][j] == parts[q][j];
        }
      }
      FirstMatchIs(o.parts, key, pos.part, pos.index);
    }
  }

  /** Line 288 skips soft-deleted elements, so clearing a name that has
      no active element appends a placeholder and still leaves no active
      element: the next clear of the same name appends again. */
  lemma ClearLeavesNoMatch(parts: Parts, nalloc: nat, key: string, a: Alloc)
    requires WellFormed(parts, nalloc) && FirstMatch(parts, key).None?
    requires !LastFull(parts, nalloc) || a.partOk
    ensures var o := SetBySearchSpec(parts, nalloc, key, "", a);
      && |Flatten(o.parts)| == |Flatten(parts)| + 1
      && Flatten(o.parts)[|Flatten(parts)|].hash == 0
      && FirstMatch(o.parts, key).None?
  {
    var o := SetBySearchSpec(parts, nalloc, key, "", a);
    AppendsWhenNoMatch(parts, nalloc, key, "", a);
    var pushed := PushSpec(parts, nalloc, a.partOk);
    var pos := pushed.slot.value;
    assert NoMatch(o.parts, key) by {
      forall q, j | 0 <= q < |o.parts| && 0 <= j < |o.parts[q]| ensures !Matches(o.parts[q][j], key) {
        if Pos(q, j) != pos {
          assert o.parts[q][j] == pushed.parts[q][j] == parts[q][j];
        }
      }
    }
  }

  /** The scan stops at the first active match (line 303), so every
      later element, in particular a later duplicate of the same name,
      is untouched and stays active: the routine does not keep "at most
      one active element per name". */
  lemma LaterDuplicatesUntouched(parts: Parts, nalloc: nat, key: string, value: string, a: Alloc, q: nat, j: nat)
    requires WellFormed(parts, nalloc) && FirstMatch(parts, key).Some?
    requires ValidPos(parts, Pos(q, j)) && Matches(parts[q][j], key)
    requires Pos(q, j) != FirstMatch(parts, key).value
    ensures var o := SetBySearchSpec(parts, nalloc, key, value, a);
      o.parts[q][j] == parts[q][j] && Matches(o.parts[q][j], key)
  {
    var m := FirstMatch(parts, key).value;
    assert !(q == m.part && j == 0);
  }

  // ---------------------------------------------------------------------
  // Line 302 as written, on a two-element list

  /** A part holding some other element and then an active element for
      `key` (say `Server: nginx` followed by `X-Frame-Options:
      SAMEORIGIN`, and X-Frame-Options is set to DENY). The routine
      overwrites the other element, slot 0 of the part, and leaves the
      old element for `key` as it was: the other header is lost and the
      name now has two entries. */
  lemma OverwritesOtherHeader(other: Element, stale: Element, nalloc: nat, key: string, value: string, a: Alloc)
    requires nalloc >= 2 && !Matches(other, key) && Matches(stale, key)
    ensures var o := SetBySearchSpec([[other, stale]], nalloc, key, value, a);
      && (o.rc == Ok <==> a.lowcaseOk)
      && o.parts == [[Written(key, value, a.lowcaseOk), stale]]
  {
    FirstMatchIs([[other, stale]], key, 0, 1);
    var w := Written(key, value, a.lowcaseOk);
    assert [other, stale][0 := w] == [w, stale];
  }

  /** Clearing a name whose active element is not at index 0 of its part
      never appends and never deactivates that element: each clear
      soft-deletes slot 0 again and leaves the list as the previous clear
      left it. */
  lemma RepeatedClearDoesNotAppend(other: Element, stale: Element, nalloc: nat, key: string, a: Alloc)
    requires nalloc >= 2 && !Matches(other, key) && Matches(stale, key)
    ensures var once := SetBySearchSpec([[other, stale]], nalloc, key, "", a).parts;
      && once == [[Written(key, "", a.lowcaseOk), stale]]
      && SetBySearchSpec(once, nalloc, key, "", a).parts == once
  {
    OverwritesOtherHeader(other, stale, nalloc, key, "", a);
    OverwritesOtherHeader(Written(key, "", a.lowcaseOk), stale, nalloc, key, "", a);
  }

  /** The same call on the corrected routine writes the element for
      `key` and keeps the other header. */
  lemma FixedKeepsOtherHeader(other: Element, stale: Element, nalloc: nat, key: string, value: string, a: Alloc)
    requires nalloc >= 2 && !Matches(other, key) && Matches(stale, key)
    ensures var o := SetBySearchFixedSpec([[other, stale]], nalloc, key, value, a);
      && (o.rc == Ok <==> a.lowcaseOk)
      && o.parts == [[other, Written(key, value, a.lowcaseOk)]]
  {
    FirstMatchIs([[other, stale]], key, 0, 1);
    var w := Written(key, value, a.lowcaseOk);
    assert [other, stale][1 := w] == [other, w];
  }

  /** Setting a header twice is not the same as setting it once: on a
      part that holds one other element, the first call appends the
      header after it, the second finds it at index 1 and writes index
      0, replacing the other element. */
  lemma SetTwiceClobbers(other: Element, nalloc: nat, key: string, value: string)
    requires nalloc >= 2 && !Matches(other, key) && |value| > 0
    ensures var w := Written(key, value, true);
      var once := SetBySearchSpec([[other]], nalloc, key, value, Alloc(true, true)).parts;
      && once == [[other, w]]
      && SetBySearchSpec(once, nalloc, key, value, Alloc(true, true)).parts == [[w, w]]
  {
    var w := Written(key, value, true);
    assert NoMatch([[other]], key);
    var once := SetBySearchSpec([[other]], nalloc, key, value, Alloc(true, true)).parts;
    assert ([other] + [Unset])[1 := w] == [other, w];
    assert once == [[other, w]];
    WrittenMatches(key, value, true);
    FirstMatchIs(once, key, 0, 1);
    assert [other, w][0 := w] == [w, w];
  }

  // ---------------------------------------------------------------------
  // The corrected routine

  /** With `h = &hi[i]` a match is overwritten in place: exactly the
      matching element changes. */
  lemma FixedWritesMatchedSlot(parts: Parts, nalloc: nat, key: string, value: string, a: Alloc)
    requires WellFormed(parts, nalloc) && FirstMatch(parts, key).Some?
    ensures var o := SetBySearchFixedSpec(parts, nalloc, key, value, a);
      var m := FirstMatch(parts, key).value;
      && FlatIndex(parts, m) < |Flatten(o.parts)| == |Flatten(parts)|
      && Flatten(o.parts) == Flatten(parts)[FlatIndex(parts, m) := Written(key, value, a.lowcaseOk)]
      && (o.rc == Ok <==> a.lowcaseOk)
  {
    var m := FirstMatch(parts, key).value;
    FlattenWrite(parts, m, Written(key, value, a.lowcaseOk));
  }

  /** With `h = &hi[i]`, setting a non-empty value twice leaves the list
      as setting it once, for any allocation outcome that is the same on
      both calls. (A failed lowcase_key allocation on only one of the two
      calls changes lowcase_key; a repeated clear appends again, as
      ClearLeavesNoMatch shows.) */
  lemma FixedIdempotent(parts: Parts, nalloc: nat, key: string, value: string, a: Alloc)
    requires WellFormed(parts, nalloc) && |value| > 0
    ensures var once := SetBySearchFixedSpec(parts, nalloc, key, value, a);
      SetBySearchFixedSpec(once.parts, nalloc, key, value, a).parts == once.parts
  {
    var once := SetBySearchFixedSpec(parts, nalloc, key, value, a);
    var w := Written(key, value, a.lowcaseOk);
    WrittenMatches(key, value, a.lowcaseOk);
    var m := FirstMatch(parts, key);
    if m.Some? {
      var p := m.value;
      assert NoMatchBefore(once.parts, key, p.part, p.index) by {
        forall q, j | 0 <= q < |once.parts| && 0 <= j < |once.parts[q]| && (q < p.part || (q == p.part && j < p.index))
          ensures !Matches(once.parts[q][j], key)
        {
          assert once.parts[q][j] == parts[q][j];
        }
      }
      FirstMatchIs(once.parts, key, p.part, p.index);
      WriteAtTwice(parts, p, w, w);
    } else {
      var pushed := PushSpec(parts, nalloc, a.partOk);
      if pushed.slot.Some? {
        var pos := pushed.slot.value;
        assert NoMatchBefore(once.parts, key, pos.part, pos.index) by {
          forall q, j | 0 <= q < |once.parts| && 0 <= j < |once.parts[q]| && (q < pos.part || (q == pos.part && j < pos.index))
            ensures !Matches(once.parts[q][j], key)
          {
            assert once.parts[q][j] == pushed.parts[q][j];
            assert q < |parts| && j < |parts[q]|;
            assert pushed.parts[q][j] == parts[q][j];
          }
        }
        FirstMatchIs(once.parts, key, pos.part, pos.index);
        WriteAtTwice(pushed.parts, pos, w, w);
      } else {
        assert NoMatch(once.parts, key);
      }
    }
  }
}
