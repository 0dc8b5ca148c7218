/**
 * What a sequence of presses of the completion key does: which path each
 * press takes, and how a session of repeated presses cycles through the
 * candidates.
 */
module CycleProps {

  import opened Options
  import opened CStrings
  import opened Editor
  import opened Fragment
  import opened CompList
  import opened Cycle

  /** A suffix of a NUL-free string is NUL-free. */
  lemma SuffixNoNul(b: string, k: nat)
    requires k <= |b| && NoNul(b)
    ensures NoNul(b[k..])
  {
  }

  /**
   * A fresh press with candidates: the list holds them head-first as addcomp
   * links them, the base cursor is the cursor of this press, the head is
   * applied, and exactly its remainder from the insertion offset is inserted.
   */
  lemma FreshPress(cfg: Config, s: Session, l: Line)
    requires s.Valid() && l.Valid()
    requires IsFresh(s, GetIn(cfg.scope, l).text)
    requires cfg.source(GetIn(cfg.scope, l).text) != []
    ensures var src := cfg.source(GetIn(cfg.scope, l).text);
            var r := Complete(cfg, s, l);
            var ins := Remainder(src[0], InsertOffset(cfg.scope, l.cursor, GetIn(cfg.scope, l).start));
            && r.code == Refresh
            && r.session.comps == [src[0]] + Reverse(src[1..])
            && r.session.base == l.cursor
            && r.session.lcomp == Some(0)
            && (ins.None? ==> r.line == l)
            && (ins.Some? ==> r.line == Insert(l, ins.value))
  {
    AddAllOrder(cfg.source(GetIn(cfg.scope, l).text));
  }

  /**
   * A repeated press (input unchanged, cursor not behind the base) with a
   * single candidate: exactly cursor - base characters go from before the
   * cursor, nothing is inserted, and the state is kept.
   */
  lemma RepeatPressSingle(cfg: Config, s: Session, l: Line)
    requires s.Valid() && l.Valid()
    requires !IsFresh(s, GetIn(cfg.scope, l).text)
    requires l.cursor >= s.base && s.lcomp.Some? && |s.comps| == 1
    ensures Complete(cfg, s, l) == Step(s, Delete(l, l.cursor - s.base), Refresh)
  {
  }

  /**
   * A repeated press (input unchanged, cursor not behind the base) with two
   * or more candidates: exactly cursor - base characters go from before the
   * cursor, the successor of the applied candidate is applied and its
   * remainder from the insertion offset is inserted.
   */
  lemma RepeatPressNext(cfg: Config, s: Session, l: Line)
    requires s.Valid() && l.Valid()
    requires !IsFresh(s, GetIn(cfg.scope, l).text)
    requires l.cursor >= s.base && s.lcomp.Some? && |s.comps| >= 2
    ensures var r := Complete(cfg, s, l);
            var l1 := Delete(l, l.cursor - s.base);
            var k := (s.lcomp.value + 1) % |s.comps|;
            var ins := Remainder(s.comps[k], InsertOffset(cfg.scope, s.base, GetIn(cfg.scope, l).start));
            && r.code == Refresh
            && r.session.comps == s.comps && r.session.base == s.base && r.session.lcomp == Some(k)
            && (ins.None? ==> r.line == l1)
            && (ins.Some? ==> r.line == Insert(l1, ins.value))
  {
  }

  /**
   * The press that reaches the recording step: a fresh press with
   * candidates, or a repeat with at least two candidates.
   */
  predicate ReachesNext(cfg: Config, s: Session, l: Line)
    requires s.Valid()
  {
    var input := GetIn(cfg.scope, l).text;
    if IsFresh(s, input) then cfg.source(input) != []
    else l.cursor >= s.base && s.lcomp.Some? && |s.comps| >= 2
  }

  /**
   * After a press that reaches the recording step on a NUL-free line, the
   * recorded input is the input of the edited line, so an immediately
   * following press takes the repeat path.
   */
  lemma NextPressRepeats(cfg: Config, s: Session, l: Line)
    requires s.Valid() && l.Valid() && NoNul(l.buffer)
    requires ReachesNext(cfg, s, l)
    ensures var r := Complete(cfg, s, l);
            && r.code == Refresh
            && r.session.lcomp.Some?
            && r.session.linput == Some(GetIn(cfg.scope, r.line).text)
            && !IsFresh(r.session, GetIn(cfg.scope, r.line).text)
  {
    var input := GetIn(cfg.scope, l);
    var r := Complete(cfg, s, l);
    var l1, s1, k;
    if IsFresh(s, input.text) {
      l1, s1, k := l, Session(AddAll([], cfg.source(input.text)), None, s.linput, l.cursor), 0;
    } else {
      l1, s1, k := Delete(l, l.cursor - s.base), s, NxtComp(s.comps, s.lcomp.value).value;
      DeleteKeepsNoNul(l, l.cursor - s.base);
    }
    assert r == Apply(cfg.scope, s1, l1, input.start, k);
    var ins := Remainder(s1.comps[k], InsertOffset(cfg.scope, s1.base, input.start));
    if ins.Some? {
      InsertKeepsNoNul(l1, ins.value);
    }
    var after := GetIn(cfg.scope, r.line);
    SuffixNoNul(r.line.buffer, after.start);
    CStrOfNoNul(after.text);
    FreshIff(r.session, after.text);
  }

  /**
   * Line scope: any change to the contents of the line between two presses,
   * even one that keeps its length, makes the second one fresh.
   */
  lemma EditBreaksCycle(s: Session, l: Line, l2: Line)
    requires s.linput == Some(GetIn(LineScope, l).text)
    requires l2.buffer != l.buffer
    ensures IsFresh(s, GetIn(LineScope, l2).text)
  {
    FreshIff(s, GetIn(LineScope, l2).text);
  }

  /** Line scope: the line after candidate `cand` was applied at the base line `l0`. */
  function Applied(l0: Line, cand: CString): (r: Line)
    requires l0.Valid()
    ensures r.Valid() && r.cursor >= l0.cursor
    ensures r.cursor - l0.cursor == (if l0.cursor < |cand| then |cand| - l0.cursor else 0)
    ensures r.buffer[r.cursor..] == l0.buffer[l0.cursor..]
  {
    match Remainder(cand, Some(l0.cursor))
    case None => l0
    case Some(ins) => Insert(l0, ins)
  }

  /**
   * A line-scope session in progress from the NUL-free base line `l0`: the
   * applied candidate's remainder sits at the base cursor and the recorded
   * input is the current line.
   */
  ghost predicate Cycling(cfg: Config, s: Session, l: Line, l0: Line) {
    && cfg.scope == LineScope
    && l0.Valid() && NoNul(l0.buffer)
    && s.Valid()
    && s.base == l0.cursor
    && s.lcomp.Some? && s.lcomp.value < |s.comps|
    && l == Applied(l0, s.comps[s.lcomp.value])
    && s.linput == Some(l.buffer)
  }

  /** The line a line-scope candidate produces is NUL-free and is its own recorded input. */
  lemma AppliedRecord(l0: Line, cand: CString)
    requires l0.Valid() && NoNul(l0.buffer)
    ensures NoNul(Applied(l0, cand).buffer)
    ensures CStr(Applied(l0, cand).buffer) == Applied(l0, cand).buffer
  {
  }

  /** Line scope: the first press of a session with candidates starts cycling at the head. */
  lemma FirstPressStartsCycle(cfg: Config, s: Session, l0: Line)
    requires cfg.scope == LineScope && s.Valid() && l0.Valid() && NoNul(l0.buffer)
    requires IsFresh(s, l0.buffer) && cfg.source(l0.buffer) != []
    ensures var r := Complete(cfg, s, l0);
            && r.code == Refresh
            && Cycling(cfg, r.session, r.line, l0)
            && r.session.comps == AddAll([], cfg.source(l0.buffer))
            && r.session.lcomp == Some(0)
  {
    var comps := AddAll([], cfg.source(l0.buffer));
    AppliedRecord(l0, comps[0]);
  }

  /**
   * Line scope, two or more candidates: a repeated press strips the applied
   * remainder, restoring the base line, and applies the successor there.
   */
  lemma RepeatPressCycles(cfg: Config, s: Session, l: Line, l0: Line)
    requires Cycling(cfg, s, l, l0) && |s.comps| >= 2
    ensures var r := Complete(cfg, s, l);
            && r.code == Refresh
            && Cycling(cfg, r.session, r.line, l0)
            && r.session.comps == s.comps
            && r.session.lcomp == NxtComp(s.comps, s.lcomp.value)
  {
    var cand := s.comps[s.lcomp.value];
    AppliedRecord(l0, cand);
    FreshIff(s, l.buffer);
    var ins := Remainder(cand, Some(l0.cursor));
    if ins.Some? {
      DeleteUndoesInsert(l0, ins.value);
    }
    assert Delete(l, l.cursor - s.base) == l0;
    var k := NxtComp(s.comps, s.lcomp.value).value;
    AppliedRecord(l0, s.comps[k]);
  }

  /**
   * Line scope, one candidate: a repeated press deletes the inserted
   * remainder and inserts nothing, leaving the base line; the press after
   * that is fresh again unless the remainder was empty.
   */
  lemma SingleCandidateToggles(cfg: Config, s: Session, l: Line, l0: Line)
    requires Cycling(cfg, s, l, l0) && |s.comps| == 1
    ensures var r := Complete(cfg, s, l);
            && r == Step(s, l0, Refresh)
            && (IsFresh(s, GetIn(LineScope, l0).text) <==> l != l0)
  {
    var cand := s.comps[s.lcomp.value];
    AppliedRecord(l0, cand);
    FreshIff(s, l.buffer);
    var ins := Remainder(cand, Some(l0.cursor));
    if ins.Some? {
      DeleteUndoesInsert(l0, ins.value);
    }
    FreshIff(s, l0.buffer);
  }

  /** `m` presses of the completion key with no edits in between. */
  function Run(cfg: Config, s: Session, l: Line, m: nat): (r: (Session, Line))
    requires s.Valid() && l.Valid()
    ensures r.0.Valid() && r.1.Valid()
    decreases m
  {
    if m == 0 then (s, l)
    else
      var r := Complete(cfg, s, l);
      Run(cfg, r.session, r.line, m - 1)
  }

  /** Line scope, two or more candidates: `m` repeats advance the applied candidate `m` times. */
  lemma {:induction false} RunCycles(cfg: Config, s: Session, l: Line, l0: Line, m: nat)
    requires Cycling(cfg, s, l, l0) && |s.comps| >= 2
    ensures var r := Run(cfg, s, l, m);
            Cycling(cfg, r.0, r.1, l0) && r.0.comps == s.comps && r.0.lcomp == Some(Advance(s.comps, s.lcomp.value, m))
    decreases m
  {
    if m > 0 {
      RepeatPressCycles(cfg, s, l, l0);
      var r := Complete(cfg, s, l);
      RunCycles(cfg, r.session, r.line, l0, m - 1);
      assert Run(cfg, s, l, m) == Run(cfg, r.session, r.line, m - 1);
      assert Advance(s.comps, s.lcomp.value, m) == Advance(s.comps, r.session.lcomp.value, m - 1);
    }
  }

  /** Two cycling states with the same base line, list and applied candidate are the same state. */
  lemma CyclingDetermined(cfg: Config, s: Session, l: Line, s2: Session, l2: Line, l0: Line)
    requires Cycling(cfg, s, l, l0) && Cycling(cfg, s2, l2, l0)
    requires s.comps == s2.comps && s.lcomp == s2.lcomp
    ensures s == s2 && l == l2
  {
  }

  /**
   * Line scope, n >= 2 candidates: after the first press of a session, n
   * repeated presses bring back exactly the line and state that first press
   * produced.
   */
  lemma FullCycleRestores(cfg: Config, s: Session, l0: Line)
    requires cfg.scope == LineScope && s.Valid() && l0.Valid() && NoNul(l0.buffer)
    requires IsFresh(s, l0.buffer) && |cfg.source(l0.buffer)| >= 2
    ensures var r := Complete(cfg, s, l0);
            Run(cfg, r.session, r.line, |cfg.source(l0.buffer)|) == (r.session, r.line)
  {
    FirstPressStartsCycle(cfg, s, l0);
    var r := Complete(cfg, s, l0);
    var n := |r.session.comps|;
    RunCycles(cfg, r.session, r.line, l0, n);
    FullRound(r.session.comps, 0);
    var after := Run(cfg, r.session, r.line, n);
    CyclingDetermined(cfg, r.session, r.line, after.0, after.1, l0);
  }


  /** A word list that completes "a" to "a b" and then "ac". */
  function SpaceSource(input: string): (r: seq<CString>)
    ensures r != [] <==> input == "a"
  {
    if input == "a" then ["a b", "ac"] else []
  }

  /** The candidate list SpaceSource yields, and the two states the presses below alternate between. */
  const SpaceComps: seq<CString> := ["a b", "ac"]
  const AtSpaced: Session := Session(SpaceComps, Some(0), Some("b"), 1)
  const AtSecond: Session := Session(SpaceComps, Some(1), Some("a"), 1)

  /** Solver hints for the presses below: the word inputs of the two lines they produce. */
  lemma SpaceHints()
    ensures GetIn(WordScope, Line("a", 1)) == Input(0, "a")
    ensures GetIn(WordScope, Line("a b", 3)) == Input(2, "b")
    ensures CStr("a") == "a" && CStr("b") == "b"
  {
  }

  /** Applying "a b" at base 1 to the line "a" inserts " b" and records "b". */
  lemma ApplySpaced(s: Session)
    requires s.comps == SpaceComps && s.base == 1
    ensures Apply(WordScope, s, Line("a", 1), 0, 0).line == Line("a b", 3)
    ensures Apply(WordScope, s, Line("a", 1), 0, 0).session.linput == Some("b")
  {
    SpaceHints();
    assert s.comps[0] == "a b";
    assert InsertOffset(WordScope, 1, 0) == Some(1);
    assert "a b"[1..] == " b";
    assert Remainder(s.comps[0], Some(1)) == Some(" b");
    assert Insert(Line("a", 1), " b") == Line("a b", 3);
  }

  /** Applying "ac" with the input start 2 past the base 1: the offset wraps and nothing is inserted. */
  lemma ApplyWrapped(s: Session)
    requires s.comps == SpaceComps && s.base == 1
    ensures Apply(WordScope, s, Line("a", 1), 2, 1).line == Line("a", 1)
    ensures Apply(WordScope, s, Line("a", 1), 2, 1).session.linput == Some("a")
  {
    SpaceHints();
    assert InsertOffset(WordScope, 1, 2) == None;
  }

  /** First press on "a": "a b" is applied and the recorded word is "b". */
  lemma SpaceFirstPress()
    ensures Complete(Config(SpaceSource, WordScope), Initial, Line("a", 1)) == Step(AtSpaced, Line("a b", 3), Refresh)
  {
    SpaceHints();
    assert AddAll([], SpaceComps) == SpaceComps by {
      AddAllOrder(SpaceComps);
      assert Reverse(["ac"]) == ["ac"];
    }
    var s1 := Session(SpaceComps, None, None, 1);
    assert Complete(Config(SpaceSource, WordScope), Initial, Line("a", 1)) == Apply(WordScope, s1, Line("a", 1), 0, 0);
    ApplySpaced(s1);
  }

  /** Second press: back to "a"; "ac" is applied but its offset 1 - 2 wraps, so nothing is inserted. */
  lemma SpaceSecondPress()
    ensures Complete(Config(SpaceSource, WordScope), AtSpaced, Line("a b", 3)) == Step(AtSecond, Line("a", 1), Refresh)
  {
    SpaceHints();
    FreshIff(AtSpaced, "b");
    assert Delete(Line("a b", 3), 2) == Line("a", 1);
    assert Complete(Config(SpaceSource, WordScope), AtSpaced, Line("a b", 3))
        == Apply(WordScope, AtSpaced, Line("a", 1), 2, 1);
    ApplyWrapped(AtSpaced);
  }

  /** Third press: a repeat again, with offset 1 - 0, bringing back "a b". */
  lemma SpaceThirdPress()
    ensures Complete(Config(SpaceSource, WordScope), AtSecond, Line("a", 1)) == Step(AtSpaced, Line("a b", 3), Refresh)
  {
    SpaceHints();
    FreshIff(AtSecond, "a");
    assert Delete(Line("a", 1), 0) == Line("a", 1);
    assert Complete(Config(SpaceSource, WordScope), AtSecond, Line("a", 1))
        == Apply(WordScope, AtSecond, Line("a", 1), 0, 0);
    ApplySpaced(AtSecond);
  }

  /**
   * Word scope, a candidate containing a space: after "a b" is inserted the
   * input is "b", starting past the base cursor, so the press that should
   * apply "ac" inserts nothing, and the one after it brings back "a b".
   * "ac" never reaches the line.
   */
  lemma SpaceInCandidateSkipsSuccessor()
    ensures var cfg := Config(SpaceSource, WordScope);
            var r1 := Complete(cfg, Initial, Line("a", 1));
            var r2 := Complete(cfg, r1.session, r1.line);
            var r3 := Complete(cfg, r2.session, r2.line);
            && r1.line == Line("a b", 3)
            && r2.line == Line("a", 1) && r2.session.lcomp == Some(1)
            && r3 == r1
  {
    SpaceFirstPress();
    SpaceSecondPress();
    SpaceThirdPress();
  }

  /**
   * Word scope: when text containing a space is inserted at the cursor, the
   * word input of the new line starts past the old cursor, so an insertion
   * offset taken from that cursor as the base wraps below zero.
   */
  lemma {:induction false} SpaceMovesWordStart(l: Line, ins: string)
    requires l.Valid() && ' ' in ins
    ensures GetIn(WordScope, Insert(l, ins)).start > l.cursor
    ensures InsertOffset(WordScope, l.cursor, GetIn(WordScope, Insert(l, ins)).start) == None
  {
    var l2 := Insert(l, ins);
    var j :| 0 <= j < |ins| && ins[j] == ' ';
    assert l2.buffer[l.cursor + j] == ' ' by {
      assert l2.buffer[l.cursor..l2.cursor][j] == ins[j];
    }
  }

  /**
   * Word scope, for every session: a repeat press whose line is the base line
   * plus an inserted text containing a space goes back to the base line,
   * applies the successor and inserts nothing, because the successor's
   * insertion offset wraps. A candidate list whose head inserts such text
   * therefore never shows the candidate after it.
   */
  lemma SpaceSkipsSuccessor(cfg: Config, s: Session, lb: Line, ins: string)
    requires cfg.scope == WordScope && s.Valid() && lb.Valid() && lb.cursor == s.base
    requires ' ' in ins
    requires !IsFresh(s, GetIn(WordScope, Insert(lb, ins)).text)
    requires s.lcomp.Some? && |s.comps| >= 2
    ensures var r := Complete(cfg, s, Insert(lb, ins));
            && r.code == Refresh && r.line == lb
            && r.session.lcomp == Some((s.lcomp.value + 1) % |s.comps|)
  {
    SpaceMovesWordStart(lb, ins);
    RepeatPressNext(cfg, s, Insert(lb, ins));
    DeleteUndoesInsert(lb, ins);
  }
}
