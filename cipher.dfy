/**
 * The encryption boundary. Encryptor.encrypt and Encryptor.decrypt are not
 * part of this model: a store is given them as function values, and the
 * properties that need the cipher to work assume RoundTrips of it.
 */
module Cipher {
  import opened Wrappers
  import opened LineReader

  /**
   * encrypt(plaintext, key) and decrypt(ciphertext, key); decrypt gives None
   * where Encryptor.decrypt throws or returns null.
   */
  datatype Crypto = Crypto(
    encrypt: (string, string) -> string,
    decrypt: (string, string) -> Option<string>)

  /**
   * The assumption the store relies on: what fetchEvent(File) reads back of
   * a ciphertext decrypts, under the same key, to the plaintext.
   */
  ghost predicate RoundTrips(c: Crypto) {
    forall x, k :: c.decrypt(ReadBack(c.encrypt(x, k)), k) == Some(x)
  }

  // A cipher that meets RoundTrips, which shows the assumption can hold: it
  // writes its output on one line (escaping line breaks and backslashes) and
  // drops the line feed the reader appends. The key plays no part.

  function EscapeChar(c: char): (r: string)
    ensures NoBreak(r) && r != []
  {
    if c == '\n' then "\\n"
    else if c == '\r' then "\\r"
    else if c == '\\' then "\\\\"
    else [c]
  }

  function Escape(x: string): (r: string)
    ensures NoBreak(r)
    ensures r == [] <==> x == []
  {
    if x == [] then [] else EscapeChar(x[0]) + Escape(x[1..])
  }

  function Unescape(y: string): (r: Option<string>)
    decreases |y|
  {
    if y == [] then Some([])
    else
      var (c, n) :=
        if y[0] != '\\' then (Some(y[0]), 1)
        else if |y| < 2 then (None, 1)
        else if y[1] == 'n' then (Some('\n'), 2)
        else if y[1] == 'r' then (Some('\r'), 2)
        else if y[1] == '\\' then (Some('\\'), 2)
        else (None, 2);
      match (c, Unescape(y[n..]))
      case (Some(c), Some(tail)) => Some([c] + tail)
      case _ => None
  }

  lemma {:induction false} UnescapeEscape(x: string)
    ensures Unescape(Escape(x)) == Some(x)
  {
    if x != [] {
      var e := EscapeChar(x[0]);
      UnescapeEscape(x[1..]);
      assert (e + Escape(x[1..]))[|e|..] == Escape(x[1..]);
      assert x == [x[0]] + x[1..];
    }
  }

  function EscapeCipher(): Crypto {
    Crypto(
      (x: string, k: string) => Escape(x),
      (y: string, k: string) =>
        if y == [] then Some([])
        else if y[|y| - 1] == '\n' then Unescape(y[..|y| - 1])
        else None)
  }

  lemma EscapeCipherRoundTrips()
    ensures RoundTrips(EscapeCipher())
  {
    var c := EscapeCipher();
    forall x, k ensures c.decrypt(ReadBack(c.encrypt(x, k)), k) == Some(x) {
      assert c.encrypt(x, k) == Escape(x);
      if x != [] {
        ReadBackOfOneLine(Escape(x));
        assert (Escape(x) + "\n")[..|Escape(x)|] == Escape(x);
      }
      UnescapeEscape(x);
    }
  }
}
