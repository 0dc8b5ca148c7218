/**
 * The candidate list (comps): a singly linked list whose first node is a fixed
 * head. It is represented here by its traversal order from the head, so index
 * 0 is the head and index i + 1 is the `nxt` of index i.
 */
module CompList {

  import opened Options
  import opened CStrings

  /** The reverse of a sequence. */
  function Reverse<T>(s: seq<T>): (r: seq<T>)
    ensures |r| == |s|
  {
    if s == [] then [] else Reverse(s[1..]) + [s[0]]
  }

  /**
   * addcomp: the first candidate becomes the head; every later one is linked
   * in directly after the head, ahead of the earlier ones.
   */
  function AddComp(comps: seq<CString>, str: CString): (r: seq<CString>)
    ensures |r| == |comps| + 1
    ensures comps == [] ==> r == [str]
    ensures comps != [] ==> r[0] == comps[0] && r[1] == str && r[2..] == comps[1..]
  {
    if comps == [] then [str] else [comps[0], str] + comps[1..]
  }

  /** The candidate source calling addcomp once for each of `strs`, in order. */
  function AddAll(comps: seq<CString>, strs: seq<CString>): (r: seq<CString>)
    ensures |r| == |comps| + |strs|
    decreases |strs|
  {
    if strs == [] then comps else AddAll(AddComp(comps, strs[0]), strs[1..])
  }

  /** Adding to a non-empty list keeps its head and its tail, and puts the new ones, reversed, in between. */
  lemma {:induction false} AddAllAfterHead(comps: seq<CString>, strs: seq<CString>)
    requires comps != []
    ensures AddAll(comps, strs) == [comps[0]] + Reverse(strs) + comps[1..]
    decreases |strs|
  {
    if strs != [] {
      var c := AddComp(comps, strs[0]);
      AddAllAfterHead(c, strs[1..]);
      var rest := Reverse(strs[1..]);
      assert AddAll(comps, strs) == [comps[0]] + rest + c[1..];
      assert c[1..] == [strs[0]] + comps[1..];
      assert Reverse(strs) == rest + [strs[0]];
      assert [comps[0]] + rest + ([strs[0]] + comps[1..]) == [comps[0]] + (rest + [strs[0]]) + comps[1..];
    }
  }

  /**
   * The traversal order of the list built by adding a0, a1, ..., an to an
   * empty list is a0 followed by an, ..., a1.
   */
  lemma {:induction false} AddAllOrder(strs: seq<CString>)
    ensures strs == [] ==> AddAll([], strs) == []
    ensures strs != [] ==> AddAll([], strs) == [strs[0]] + Reverse(strs[1..])
  {
    if strs != [] {
      AddAllAfterHead([strs[0]], strs[1..]);
    }
  }

  /**
   * nxtcomp: the candidate after the one at index `i` (which must exist; the
   * source asserts a non-NULL argument), wrapping from the last back to the
   * head, and none when the head is also the last.
   */
  function NxtComp(comps: seq<CString>, i: nat): (r: Option<nat>)
    requires i < |comps|
    ensures r.None? <==> |comps| == 1
    ensures r.Some? ==> r.value == (i + 1) % |comps|
  {
    if i + 1 < |comps| then Some(i + 1)
    else if i != 0 then Some(0)
    else None
  }

  /** Following nxtcomp `m` times from index `i`. */
  function Advance(comps: seq<CString>, i: nat, m: nat): (r: nat)
    requires |comps| >= 2 && i < |comps|
    ensures r < |comps|
    decreases m
  {
    if m == 0 then i else Advance(comps, NxtComp(comps, i).value, m - 1)
  }

  /** Following successors `a` times and then `b` times is following them `a + b` times. */
  lemma {:induction false} AdvanceAdd(comps: seq<CString>, i: nat, a: nat, b: nat)
    requires |comps| >= 2 && i < |comps|
    ensures Advance(comps, Advance(comps, i, a), b) == Advance(comps, i, a + b)
    decreases a
  {
    if a > 0 {
      AdvanceAdd(comps, NxtComp(comps, i).value, a - 1, b);
    }
  }

  /** Short of the end, `m` successors from `i` reach `i + m`; exactly at the end they wrap to the head. */
  lemma {:induction false} AdvanceWithin(comps: seq<CString>, i: nat, m: nat)
    requires |comps| >= 2 && i + m <= |comps| && i < |comps|
    ensures Advance(comps, i, m) == if i + m == |comps| then 0 else i + m
    decreases m
  {
    if m > 0 {
      AdvanceWithin(comps, NxtComp(comps, i).value, m - 1);
    }
  }

  /** With at least two candidates, n successors go once round the list and come back. */
  lemma FullRound(comps: seq<CString>, i: nat)
    requires |comps| >= 2 && i < |comps|
    ensures Advance(comps, i, |comps|) == i
  {
    var n := |comps|;
    AdvanceWithin(comps, i, n - i);
    AdvanceWithin(comps, 0, i);
    AdvanceAdd(comps, i, n - i, i);
  }

}
