/**
 * The cycle controller (complete): on each press of the completion key it
 * either starts a fresh session (fetch candidates, remember the base cursor)
 * or repeats (strip what the last press inserted, move to the next
 * candidate), then inserts the candidate's unmatched remainder and remembers
 * the resulting input.
 */
module Cycle {

  import opened Options
  import opened CStrings
  import opened Editor
  import opened Fragment
  import opened CompList

  /**
   * What initcomp installs: the candidate source (compfn), given as the
   * strings it passes to addcomp for an input, and the completion scope.
   */
  datatype Config = Config(source: string -> seq<CString>, scope: Scope)

  /**
   * The state complete keeps between calls: the candidate list (comps), the
   * index of the candidate applied last (lcomp), the input recorded after the
   * last edit (linput) and the base cursor (bbcur and bccur, which coincide
   * for ASCII text).
   */
  datatype Session = Session(comps: seq<CString>, lcomp: Option<nat>, linput: Option<CString>, base: nat) {
    /** lcomp, when set, points at a node of the list. */
    predicate Valid() {
      lcomp.Some? ==> lcomp.value < |comps|
    }
  }

  /** The static state before the first call: everything NULL or 0. */
  const Initial: Session := Session([], None, None, 0)

  /** CC_REFRESH, CC_ERROR, or a failed assert() that ends the program. */
  datatype Code = Refresh | Error | Abort

  /** The outcome of one call: new state, new line and the returned code. */
  datatype Step = Step(session: Session, line: Line, code: Code)

  /** initcomp: install the candidate source and choose word scope when `wordcomp` is non-zero. */
  function InitComp(fn: string -> seq<CString>, wordcomp: int): (r: Config)
    ensures r.source == fn
    ensures r.scope == WordScope <==> wordcomp != 0
  {
    Config(fn, if wordcomp != 0 then WordScope else LineScope)
  }

  /** freecomps: empty the candidate list and leave the rest of the state alone. */
  function FreeComps(s: Session): (r: Session)
    ensures r.comps == []
    ensures r.lcomp == s.lcomp && r.linput == s.linput && r.base == s.base
  {
    s.(comps := [])
  }

  /**
   * The test that starts a fresh session: nothing recorded yet, or the input
   * differs from the record in strlen or in strncmp.
   */
  predicate IsFresh(s: Session, input: string) {
    s.linput.None? || |input| != |s.linput.value| || !StrnEqual(input, s.linput.value, |input|)
  }

  /** The call is fresh exactly when nothing is recorded or the input differs from the record. */
  lemma FreshIff(s: Session, input: string)
    ensures IsFresh(s, input) <==> s.linput.None? || input != s.linput.value
  {
    if s.linput.Some? && |input| == |s.linput.value| {
      StrnEqualIff(input, s.linput.value);
    }
  }

  /**
   * The offset into the candidate from which to insert: the base cursor,
   * less the input's start in word scope. None stands for the size_t
   * subtraction wrapping below zero, which gives a value no string reaches.
   */
  function InsertOffset(scope: Scope, base: nat, start: nat): (r: Option<nat>)
    ensures r.None? <==> scope == WordScope && base < start
    ensures r.Some? ==> r.value + (if scope == WordScope then start else 0) == base
  {
    if scope == WordScope then
      if base < start then None else Some(base - start)
    else Some(base)
  }

  /** The text inserted for candidate `cand` at offset `off`, if any: its remainder from `off` on. */
  function Remainder(cand: CString, off: Option<nat>): (r: Option<CString>)
    ensures r.Some? <==> off.Some? && off.value < |cand|
    ensures r.Some? ==> r.value != [] && cand == cand[..off.value] + r.value
  {
    if off.Some? && off.value < |cand| then
      assert forall j | 0 <= j < |cand| - off.value :: cand[off.value..][j] == cand[off.value + j];
      Some(cand[off.value..])
    else None
  }

  /**
   * The tail of complete shared by both paths: insert the remainder of
   * candidate `k` at the cursor (or nothing, when the offset is past its end),
   * then record the input of the edited line and `k` as the applied candidate.
   * `start` is where the input began when the call was made.
   */
  function Apply(scope: Scope, s: Session, l: Line, start: nat, k: nat): (r: Step)
    requires l.Valid() && k < |s.comps|
    ensures r.code == Refresh && r.line.Valid() && r.session.Valid()
    ensures r.session.comps == s.comps && r.session.base == s.base
    ensures r.session.lcomp == Some(k)
    ensures r.session.linput == Some(CStr(GetIn(scope, r.line).text))
    ensures Remainder(s.comps[k], InsertOffset(scope, s.base, start)).None? ==> r.line == l
    ensures Remainder(s.comps[k], InsertOffset(scope, s.base, start)).Some? ==>
              r.line == Insert(l, Remainder(s.comps[k], InsertOffset(scope, s.base, start)).value)
  {
    var l1 :=
      match Remainder(s.comps[k], InsertOffset(scope, s.base, start))
      case None => l
      case Some(ins) => Insert(l, ins);
    Step(s.(linput := Some(CStr(GetIn(scope, l1).text)), lcomp := Some(k)), l1, Refresh)
  }

  /** complete: one press of the completion key. */
  function Complete(cfg: Config, s: Session, l: Line): (r: Step)
    requires s.Valid() && l.Valid()
    ensures r.session.Valid() && r.line.Valid()
    ensures r.code == Error <==> IsFresh(s, GetIn(cfg.scope, l).text) && cfg.source(GetIn(cfg.scope, l).text) == []
    ensures r.code == Error ==> r.line == l && r.session.comps == [] && r.session.lcomp.None?
    ensures r.code == Error ==> r.session.linput == s.linput && r.session.base == s.base
    ensures r.code == Abort <==> !IsFresh(s, GetIn(cfg.scope, l).text) && (l.cursor < s.base || s.lcomp.None?)
  {
    var input := GetIn(cfg.scope, l);
    if IsFresh(s, input.text) then
      var comps := AddAll([], cfg.source(input.text));
      if comps == [] then
        Step(FreeComps(s).(lcomp := None), l, Error)
      else
        Apply(cfg.scope, Session(comps, None, s.linput, l.cursor), l, input.start, 0)
    else if l.cursor < s.base then
      Step(s, l, Abort)
    else
      var l1 := Delete(l, l.cursor - s.base);
      match s.lcomp
      case None => Step(s, l1, Abort)
      case Some(i) =>
        match NxtComp(s.comps, i)
        case None => Step(s, l1, Refresh)
        case Some(k) => Apply(cfg.scope, s, l1, input.start, k)
  }

}
