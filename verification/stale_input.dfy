/**
 * When a fresh press finds no candidates, complete returns CC_ERROR but keeps
 * the input recorded by the previous session while dropping the applied
 * candidate. If the user then edits the line back to that recorded input,
 * the next press takes the repeat path with no applied candidate and fails
 * nxtcomp's assertion. The corrected controller also forgets the recorded
 * input on CC_ERROR, so the next press always starts afresh.
 */
module StaleInput {

  import opened Options
  import opened CStrings
  import opened Editor
  import opened Fragment
  import opened CompList
  import opened Cycle
  import opened CycleProps

  /** A recorded input always comes with an applied candidate. */
  predicate Coherent(s: Session) {
    s.linput.Some? ==> s.lcomp.Some?
  }

  /**
   * complete as intended: identical except that CC_ERROR also clears the
   * recorded input. From a coherent state it stays coherent, and the only
   * assertion it can still fail is the one on a cursor moved behind the base.
   */
  function CompleteFixed(cfg: Config, s: Session, l: Line): (r: Step)
    requires s.Valid() && l.Valid()
    ensures r.session.Valid() && r.line.Valid()
    ensures r.code != Error ==> r == Complete(cfg, s, l)
    ensures r.code == Error ==> r.line == l && r.session.linput.None? && r.session.comps == []
    ensures Coherent(s) ==> Coherent(r.session)
    ensures Coherent(s) && r.code == Abort ==> l.cursor < s.base
  {
    var r := Complete(cfg, s, l);
    if r.code == Error then r.(session := r.session.(linput := None)) else r
  }

  /** The state before the first press is coherent. */
  lemma InitialCoherent()
    ensures Coherent(Initial) && Initial.Valid()
  {
  }

  /** In a line-scope session the corrected controller cycles exactly like the original. */
  lemma FixedAgreesWhileCycling(cfg: Config, s: Session, l: Line, l0: Line)
    requires Cycling(cfg, s, l, l0)
    ensures CompleteFixed(cfg, s, l) == Complete(cfg, s, l)
    ensures CompleteFixed(cfg, s, l).code == Refresh
  {
    assert !IsFresh(s, GetIn(cfg.scope, l).text) by {
      FreshIff(s, l.buffer);
    }
  }

  /** A word list that completes "ab" to "abc" and has nothing for any other input. */
  function AbcSource(input: string): (r: seq<CString>)
    ensures r != [] <==> input == "ab"
  {
    if input == "ab" then ["abc"] else []
  }

  /** The states the presses below pass through. */
  const AbcApplied: Session := Session(["abc"], Some(0), Some("abc"), 2)
  const AbcStale: Session := Session([], None, Some("abc"), 2)
  const AbcCleared: Session := Session([], None, None, 2)

  /** First press on "ab": "abc" is applied and recorded. */
  lemma AbcFirstPress()
    ensures Complete(Config(AbcSource, LineScope), Initial, Line("ab", 2)) == Step(AbcApplied, Line("abc", 3), Refresh)
  {
    assert CStr("abc") == "abc";
    assert "ab" + "c" == "abc";
    assert AddAll([], ["abc"]) == ["abc"];
    var s1 := Session(["abc"], None, None, 2);
    assert Complete(Config(AbcSource, LineScope), Initial, Line("ab", 2)) == Apply(LineScope, s1, Line("ab", 2), 0, 0);
    assert Remainder("abc", InsertOffset(LineScope, 2, 0)) == Some("c");
    assert Apply(LineScope, s1, Line("ab", 2), 0, 0).line.buffer == "ab" + "c";
  }

  /** Second press, after typing "d": no candidates for "abcd"; the record of "abc" stays. */
  lemma AbcSecondPress()
    ensures Insert(Line("abc", 3), "d") == Line("abcd", 4)
    ensures Complete(Config(AbcSource, LineScope), AbcApplied, Line("abcd", 4)) == Step(AbcStale, Line("abcd", 4), Error)
  {
  }

  /** Third press, after deleting the "d": a repeat with no applied candidate, which fails. */
  lemma AbcThirdPress()
    ensures Delete(Line("abcd", 4), 1) == Line("abc", 3)
    ensures Complete(Config(AbcSource, LineScope), AbcStale, Line("abc", 3)).code == Abort
  {
  }

  /**
   * The original controller, line scope: press on "ab" (inserts "c"), type
   * "d", press (no candidates: CC_ERROR), delete the "d", press. The last
   * press sees its recorded input again, takes the repeat path with the
   * cursor ahead of the base, and fails because no candidate is applied.
   */
  lemma StaleInputAborts()
    ensures var cfg := Config(AbcSource, LineScope);
            var r1 := Complete(cfg, Initial, Line("ab", 2));
            var l2 := Insert(r1.line, "d");
            var r2 := Complete(cfg, r1.session, l2);
            var l3 := Delete(r2.line, 1);
            && r1.code == Refresh && r2.code == Error
            && r2.session.linput.Some? && r2.session.lcomp.None?
            && l3 == Line("abc", 3) && l3.cursor >= r2.session.base
            && Complete(cfg, r2.session, l3).code == Abort
  {
    AbcFirstPress();
    AbcSecondPress();
    AbcThirdPress();
  }

  /** The same presses with the corrected controller: the last one is a fresh press that finds no candidates. */
  lemma StaleInputFixed()
    ensures var cfg := Config(AbcSource, LineScope);
            var r1 := CompleteFixed(cfg, Initial, Line("ab", 2));
            var r2 := CompleteFixed(cfg, r1.session, Insert(r1.line, "d"));
            var l3 := Delete(r2.line, 1);
            && r2.code == Error && l3 == Line("abc", 3)
            && CompleteFixed(cfg, r2.session, l3) == Step(AbcCleared, l3, Error)
  {
    AbcFirstPress();
    AbcSecondPress();
    AbcThirdPress();
    assert CompleteFixed(Config(AbcSource, LineScope), AbcApplied, Line("abcd", 4)) == Step(AbcCleared, Line("abcd", 4), Error);
  }
}
