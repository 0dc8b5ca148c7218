/**
 * The fragment resolver (getin): which part of the edit line is the
 * completion input.
 */
module Fragment {

  import opened Options
  import opened Editor

  /** Completion scope, chosen once by initcomp's `wordcomp` flag. */
  datatype Scope = LineScope | WordScope

  /** The completion input: where it starts in the buffer, and its text. */
  datatype Input = Input(start: nat, text: string)

  /** memrchr: the index of the last occurrence of `c` in `s`, if any. */
  function LastIndexOf(s: string, c: char): (r: Option<nat>)
    ensures r.Some? ==> r.value < |s| && s[r.value] == c && c !in s[r.value + 1..]
    ensures r.None? ==> c !in s
  {
    if s == [] then None
    else if s[|s| - 1] == c then Some(|s| - 1)
    else
      var r := LastIndexOf(s[..|s| - 1], c);
      if r.Some? then
        assert s[r.value + 1..] == s[..|s| - 1][r.value + 1..] + [s[|s| - 1]];
        r
      else
        assert s == s[..|s| - 1] + [s[|s| - 1]];
        r
  }

  /**
   * getin. Line scope: the whole buffer, whatever the cursor. Word scope: the
   * text after the last space of the whole line; the search runs to the end of
   * the line, not to the cursor.
   */
  function GetIn(scope: Scope, l: Line): (r: Input)
    ensures r.start <= |l.buffer| && r.text == l.buffer[r.start..]
    ensures scope == LineScope ==> r.start == 0 && r.text == l.buffer
    ensures scope == WordScope ==> ' ' !in r.text
    ensures scope == WordScope ==> r.start == 0 || l.buffer[r.start - 1] == ' '
  {
    match scope
    case LineScope => Input(0, l.buffer)
    case WordScope =>
      match LastIndexOf(l.buffer, ' ')
      case Some(i) => Input(i + 1, l.buffer[i + 1..])
      case None => Input(0, l.buffer)
  }

  /**
   * The word-scope start is the only offset at which a space-free suffix of
   * the line begins right after a space or at offset 0.
   */
  lemma WordStartUnique(l: Line, k: nat)
    requires k <= |l.buffer|
    ensures (' ' !in l.buffer[k..] && (k == 0 || l.buffer[k - 1] == ' '))
            <==> k == GetIn(WordScope, l).start
  {
  }

  /** Neither scope's input depends on where the cursor is. */
  lemma InputIgnoresCursor(scope: Scope, b: string, c1: nat, c2: nat)
    ensures GetIn(scope, Line(b, c1)) == GetIn(scope, Line(b, c2))
  {
  }

  /** The trailing word of "foo bar" is "bar"; in line scope the input is all of it. */
  lemma FooBarExample()
    ensures GetIn(WordScope, Line("foo bar", 7)) == Input(4, "bar")
    ensures GetIn(LineScope, Line("foo bar", 7)) == Input(0, "foo bar")
  {
  }

  /**
   * With the cursor inside the first word, word scope still takes the text
   * after the last space of the whole line.
   */
  lemma WordScopeSearchesWholeLine()
    ensures GetIn(WordScope, Line("foo bar", 2)).text == "bar"
  {
  }

}
