/**
 * The host line editor, seen only through the two buffer primitives the
 * completion engine calls (el_deletestr and el_insertstr). Text is ASCII, so
 * a byte offset and a character offset into the buffer coincide.
 */
module Editor {

  import opened CStrings

  /** The edit line: buffer contents (up to lastchar) and the cursor offset. */
  datatype Line = Line(buffer: string, cursor: nat) {
    predicate Valid() {
      cursor <= |buffer|
    }
  }

  /** Remove `n` characters immediately before the cursor. */
  function Delete(l: Line, n: nat): (r: Line)
    requires l.Valid() && n <= l.cursor
    ensures r.Valid()
    ensures |r.buffer| == |l.buffer| - n && r.cursor == l.cursor - n
    ensures r.buffer[..r.cursor] == l.buffer[..l.cursor - n]
    ensures r.buffer[r.cursor..] == l.buffer[l.cursor..]
  {
    Line(l.buffer[..l.cursor - n] + l.buffer[l.cursor..], l.cursor - n)
  }

  /** Insert `s` at the cursor and move the cursor past it. */
  function Insert(l: Line, s: string): (r: Line)
    requires l.Valid()
    ensures r.Valid()
    ensures |r.buffer| == |l.buffer| + |s| && r.cursor == l.cursor + |s|
    ensures r.buffer[..l.cursor] == l.buffer[..l.cursor]
    ensures r.buffer[l.cursor..r.cursor] == s
    ensures r.buffer[r.cursor..] == l.buffer[l.cursor..]
  {
    Line(l.buffer[..l.cursor] + s + l.buffer[l.cursor..], l.cursor + |s|)
  }

  /** Deleting as many characters as were just inserted restores the line. */
  lemma DeleteUndoesInsert(l: Line, s: string)
    requires l.Valid()
    ensures Delete(Insert(l, s), |s|) == l
  {
  }

  /** Inserting NUL-free text into a NUL-free buffer keeps it NUL-free. */
  lemma InsertKeepsNoNul(l: Line, s: string)
    requires l.Valid() && NoNul(l.buffer) && NoNul(s)
    ensures NoNul(Insert(l, s).buffer)
  {
  }

  /** Deleting from a NUL-free buffer keeps it NUL-free. */
  lemma DeleteKeepsNoNul(l: Line, n: nat)
    requires l.Valid() && n <= l.cursor && NoNul(l.buffer)
    ensures NoNul(Delete(l, n).buffer)
  {
  }

}
