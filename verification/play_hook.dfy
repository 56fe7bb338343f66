/** The "last played" list kept by the play hook: the parent container of
    the object being played moves to the front, and the list is capped. */
module PlayHook {
  import opened Common

  const LastOpenedLimit: nat := 5

  /** What the play hook leaves behind: the list as it stood when the
      trigger was called, and the updated list. The trigger itself is
      outside the model; the first field records, by construction, that it
      is called before the list changes. */
  datatype HookEffect = HookEffect(seenByTrigger: seq<int>, lastOpened: seq<int>)

  /** `std::find` followed by `erase`: drop the first occurrence of `x`. */
  function EraseFirst(s: seq<int>, x: int): (r: seq<int>)
  {
    if |s| == 0 then []
    else if s[0] == x then s[1..]
    else [s[0]] + EraseFirst(s[1..], x)
  }

  /** The play hook: trigger the hook on the object, then move its parent ID
      to the front of the list and drop the last element if the list grew
      past the limit. */
  function OnPlay(lastOpened: seq<int>, parentId: int): (r: HookEffect)
  {
    var moved := [parentId] + EraseFirst(lastOpened, parentId);
    HookEffect(lastOpened, if |moved| > LastOpenedLimit then moved[..|moved| - 1] else moved)
  }

  predicate NoDuplicates(s: seq<int>)
  {
    forall i, j :: 0 <= i < j < |s| ==> s[i] != s[j]
  }

  /* ---------------------------------------------------------------- */
  /* EraseFirst                                                        */
  /* ---------------------------------------------------------------- */

  /** The position of the first occurrence of `x`. */
  function FirstIndex(s: seq<int>, x: int): (k: nat)
    requires x in s
    ensures k < |s| && s[k] == x
    ensures forall i :: 0 <= i < k ==> s[i] != x
  {
    if s[0] == x then 0 else 1 + FirstIndex(s[1..], x)
  }

  /** Erasing the first occurrence: when the element is there, the result
      is the input with exactly the position of its first occurrence cut out,
      so every other element keeps its relative order; otherwise the input
      comes back unchanged. */
  lemma {:induction false} EraseFirstCutsFirstOccurrence(s: seq<int>, x: int)
    ensures x !in s ==> EraseFirst(s, x) == s
    ensures x in s ==> EraseFirst(s, x) == s[..FirstIndex(s, x)] + s[FirstIndex(s, x) + 1..]
    ensures x in s ==> |EraseFirst(s, x)| == |s| - 1
  {
    if |s| > 0 && s[0] != x {
      var t := s[1..];
      EraseFirstCutsFirstOccurrence(t, x);
      assert s == [s[0]] + t;
      if x in t {
        ConsCut(s, FirstIndex(t, x));
      }
    } else if |s| > 0 {
      assert s[..0] + s[1..] == s[1..];
    }
  }

  /** Cutting position `k + 1` out of `s` is keeping its head and cutting
      position `k` out of its tail. */
  lemma ConsCut(s: seq<int>, k: nat)
    requires k + 1 < |s|
    ensures [s[0]] + (s[1..][..k] + s[1..][k + 1..]) == s[..k + 1] + s[k + 2..]
  {
    assert s[..k + 1] == [s[0]] + s[1..][..k];
    assert s[k + 2..] == s[1..][k + 1..];
  }

  lemma EraseFirstKeepsNoDuplicates(s: seq<int>, x: int)
    requires NoDuplicates(s)
    ensures NoDuplicates(EraseFirst(s, x)) && x !in EraseFirst(s, x)
  {
    EraseFirstCutsFirstOccurrence(s, x);
    if x in s {
      var k := FirstIndex(s, x);
      var r := EraseFirst(s, x);
      assert |r| == |s| - 1;
      assert forall i :: 0 <= i < k ==> r[i] == s[i];
      assert forall i :: k <= i < |r| ==> r[i] == s[i + 1];
      forall i, j | 0 <= i < j < |r|
        ensures r[i] != r[j]
      {
        var i' := if i < k then i else i + 1;
        var j' := if j < k then j else j + 1;
        assert r[i] == s[i'] && r[j] == s[j'];
      }
      forall i | 0 <= i < |r|
        ensures r[i] != x
      {
        var i' := if i < k then i else i + 1;
        assert r[i] == s[i'];
      }
    }
  }

  /* ---------------------------------------------------------------- */
  /* The play hook                                                     */
  /* ---------------------------------------------------------------- */

  /** Afterwards the parent ID is at the front; the list recorded for the
      trigger call is the list before the update. */
  lemma ParentAtFront(lastOpened: seq<int>, parentId: int)
    ensures OnPlay(lastOpened, parentId).seenByTrigger == lastOpened
    ensures |OnPlay(lastOpened, parentId).lastOpened| > 0
    ensures OnPlay(lastOpened, parentId).lastOpened[0] == parentId
  {
  }

  /** The list is the parent ID followed by the old list with the parent
      erased, in the old order, cut to the limit; the cut drops exactly the
      last element, and only when the list has grown past the limit. */
  lemma {:induction false} MoveToFrontShape(lastOpened: seq<int>, parentId: int)
    ensures var r := OnPlay(lastOpened, parentId).lastOpened;
      var rest := EraseFirst(lastOpened, parentId);
      && (|rest| + 1 <= LastOpenedLimit ==> r == [parentId] + rest)
      && (|rest| + 1 > LastOpenedLimit ==> r == [parentId] + rest[..|rest| - 1])
  {
    EraseFirstCutsFirstOccurrence(lastOpened, parentId);
    var rest := EraseFirst(lastOpened, parentId);
    var moved := [parentId] + rest;
    if |moved| > LastOpenedLimit {
      assert moved[..|moved| - 1] == [parentId] + rest[..|rest| - 1];
    }
  }

  /** Replaying a parent that is already listed, on a list within the
      limit, keeps the length; a list within the limit stays within it. */
  lemma LengthBounds(lastOpened: seq<int>, parentId: int)
    ensures parentId in lastOpened && |lastOpened| <= LastOpenedLimit ==>
            |OnPlay(lastOpened, parentId).lastOpened| == |lastOpened|
    ensures |lastOpened| <= LastOpenedLimit ==> |OnPlay(lastOpened, parentId).lastOpened| <= LastOpenedLimit
    ensures parentId !in lastOpened && |lastOpened| < LastOpenedLimit ==>
            |OnPlay(lastOpened, parentId).lastOpened| == |lastOpened| + 1
  {
    EraseFirstCutsFirstOccurrence(lastOpened, parentId);
  }

  /** A list without repeats keeps having none, so the parent ID occurs
      exactly once. */
  lemma NoDuplicatesPreserved(lastOpened: seq<int>, parentId: int)
    requires NoDuplicates(lastOpened)
    ensures NoDuplicates(OnPlay(lastOpened, parentId).lastOpened)
    ensures Count(OnPlay(lastOpened, parentId).lastOpened, parentId) == 1
  {
    EraseFirstKeepsNoDuplicates(lastOpened, parentId);
    var rest := EraseFirst(lastOpened, parentId);
    var r := OnPlay(lastOpened, parentId).lastOpened;
    var moved := [parentId] + rest;
    assert r == moved || r == moved[..|moved| - 1];
    assert r[1..] == rest || r[1..] == rest[..|rest| - 1];
    assert parentId !in r[1..];
    assert r == [parentId] + r[1..];
    CountAppend([parentId], r[1..], parentId);
    CountZeroIffAbsent(r[1..], parentId);
  }
}
