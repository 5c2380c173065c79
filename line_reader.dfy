/**
 * What fetchEvent(File) gets back from the file: it reads the contents with
 * BufferedReader.readLine and appends every line it reads followed by '\n'.
 * readLine ends a line at "\n", "\r" or "\r\n", and returns the text after the
 * last line break as one more line when that text is not empty.
 */
module LineReader {

  predicate IsBreak(c: char) { c == '\n' || c == '\r' }

  predicate NoBreak(s: string) {
    forall i :: 0 <= i < |s| ==> !IsBreak(s[i])
  }

  /** Position of the first line break in s, or |s| when it has none. */
  function LineEnd(s: string): (n: nat)
    ensures n <= |s|
    ensures NoBreak(s[..n])
    ensures n < |s| ==> IsBreak(s[n])
  {
    if s == [] || IsBreak(s[0]) then 0
    else
      var m := LineEnd(s[1..]);
      assert s[..m + 1] == [s[0]] + s[1..][..m];
      m + 1
  }

  /**
   * One readLine on the unread text s: the line, without its terminator, and
   * the text that follows the terminator.
   */
  function NextLine(s: string): (r: (string, string))
    requires s != []
    ensures NoBreak(r.0)
    ensures |r.1| < |s|
    ensures || (s == r.0 && r.1 == [])
            || s == r.0 + "\n" + r.1
            || s == r.0 + "\r\n" + r.1
            || (s == r.0 + "\r" + r.1 && (r.1 == [] || r.1[0] != '\n'))
  {
    var n := LineEnd(s);
    if n == |s| then
      assert s[..n] == s;
      (s, [])
    else if s[n] == '\r' && n + 1 < |s| && s[n + 1] == '\n' then
      assert s == s[..n] + "\r\n" + s[n + 2..];
      (s[..n], s[n + 2..])
    else
      assert s == s[..n] + [s[n]] + s[n + 1..];
      (s[..n], s[n + 1..])
  }

  /**
   * The text fetchEvent(File) hands to decrypt for a file holding s: every
   * line of s followed by '\n'. It holds no carriage return, and it ends with
   * a line feed unless the file is empty.
   */
  function ReadBack(s: string): (r: string)
    ensures '\r' !in r
    ensures r == [] <==> s == []
    ensures r != [] ==> r[|r| - 1] == '\n'
    decreases |s|
  {
    if s == [] then []
    else
      var (line, rest) := NextLine(s);
      line + "\n" + ReadBack(rest)
  }

  /** Reading back the text is reading its first line and then the rest. */
  lemma ReadBackStep(done: string, s: string)
    requires s != []
    ensures (done + (NextLine(s).0 + "\n")) + ReadBack(NextLine(s).1) == done + ReadBack(s)
  {
  }

  /** Text whose lines all end in a line feed comes back unchanged. */
  lemma {:induction false} ReadBackOfTerminated(s: string)
    requires '\r' !in s
    requires s == [] || s[|s| - 1] == '\n'
    ensures ReadBack(s) == s
    decreases |s|
  {
    if s != [] {
      var (line, rest) := NextLine(s);
      assert s == line + "\n" + rest;
      assert rest == s[|line| + 1..];
      ReadBackOfTerminated(rest);
    }
  }

  /** Reading back what was read back changes nothing. */
  lemma ReadBackIdempotent(s: string)
    ensures ReadBack(ReadBack(s)) == ReadBack(s)
  {
    ReadBackOfTerminated(ReadBack(s));
  }

  /**
   * A file holding one line without a terminator, such as a ciphertext,
   * comes back with a line feed appended.
   */
  lemma ReadBackOfOneLine(s: string)
    requires s != [] && NoBreak(s)
    ensures ReadBack(s) == s + "\n"
  {
    assert LineEnd(s) == |s|;
  }
}
