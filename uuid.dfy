/** The `UUID` type of the `id` columns. PostgreSQL reads a UUID from text
    with `uuid_in` and writes it back with `uuid_out`, so `WHERE id = $1`
    compares UUID values, not the text the client sent: braces, upper-case
    digits and a different placement of hyphens all name the same row. A
    row is keyed here by the canonical text `uuid_out` writes for its UUID.
 */
module Uuid {
  import opened Schema

  predicate IsHexDigit(c: char) {
    '0' <= c <= '9' || 'a' <= c <= 'f' || 'A' <= c <= 'F'
  }

  predicate IsLowerHexDigit(c: char) {
    '0' <= c <= '9' || 'a' <= c <= 'f'
  }

  /** The value of a hexadecimal digit of either case. */
  function HexValue(c: char): (v: nat)
    requires IsHexDigit(c)
    ensures v < 16
  {
    if '0' <= c <= '9' then c as int - '0' as int
    else if 'a' <= c <= 'f' then c as int - 'a' as int + 10
    else c as int - 'A' as int + 10
  }

  /** A hexadecimal digit in lower case, with the same value. */
  function ToLower(c: char): (d: char)
    requires IsHexDigit(c)
    ensures IsLowerHexDigit(d) && HexValue(d) == HexValue(c)
    ensures IsLowerHexDigit(c) ==> d == c
  {
    if 'A' <= c <= 'F' then (c as int + 32) as char else c
  }

  /** A hexadecimal digit in upper case, with the same value; every other
      character is kept. */
  function UpperDigit(c: char): (d: char)
    ensures IsHexDigit(d) <==> IsHexDigit(c)
    ensures IsHexDigit(c) ==> HexValue(d) == HexValue(c) && ToLower(d) == ToLower(c)
    ensures d == '-' <==> c == '-'
  {
    if 'a' <= c <= 'f' then (c as int - 32) as char else c
  }

  /** `s` with every lower-case hexadecimal digit in upper case. */
  function Upper(s: string): (u: string)
    ensures |u| == |s| && forall i :: 0 <= i < |s| ==> u[i] == UpperDigit(s[i])
  {
    seq(|s|, i requires 0 <= i < |s| => UpperDigit(s[i]))
  }

  /** `uuid_out` writes a hyphen after bytes 3, 5, 7 and 9. */
  predicate HyphenAfter(i: nat) {
    i == 3 || i == 5 || i == 7 || i == 9
  }

  /** The text left once the two digits of byte `i` at the front of `s` are
      read by `uuid_in`, which accepts one hyphen after an odd-numbered byte
      other than the last. */
  function AfterByte(s: string, i: nat): (rest: string)
    requires |s| >= 2
  {
    if |s| > 2 && s[2] == '-' && i % 2 == 1 && i < 15 then s[3..] else s[2..]
  }

  /** Reads bytes `i` to 15 from the front of `s` as `uuid_in` does, each as
      two hexadecimal digits of either case, and writes them back as
      `uuid_out` does. Gives that text and the text left after the digits. */
  function ReadKey(s: string, i: nat): (r: Option<(string, string)>)
    requires i <= 16
    decreases 16 - i
  {
    if i == 16 then Some(("", s))
    else if |s| < 2 || !IsHexDigit(s[0]) || !IsHexDigit(s[1]) then None
    else
      match ReadKey(AfterByte(s, i), i + 1)
      case None => None
      case Some((t, rest)) => Some(([ToLower(s[0]), ToLower(s[1])] + (if HyphenAfter(i) then "-" else "") + t, rest))
  }

  /** The key a path id selects: the canonical text of the UUID it spells,
      or nothing when it does not spell one (PostgreSQL then raises an
      error). The digits may be wrapped in braces; nothing else may precede
      or follow them. */
  function Key(s: string): (k: Option<Id>)
  {
    var braced := |s| > 0 && s[0] == '{';
    var read := ReadKey(if braced then s[1..] else s, 0);
    if read.Some? && read.value.1 == (if braced then "}" else "") then Some(read.value.0) else None
  }

  /** `s` is the canonical text of a UUID, as `uuidv4()` and `uuid_out`
      produce it: 32 lower-case digits in groups of 8, 4, 4, 4 and 12. */
  predicate IsCanonical(s: string) {
    CanonicalFrom(s, 0)
  }

  /** `s` is the canonical text of bytes `i` to 15. */
  predicate CanonicalFrom(s: string, i: nat)
    requires i <= 16
    decreases 16 - i
  {
    if i == 16 then s == ""
    else
      && |s| >= 2 && IsLowerHexDigit(s[0]) && IsLowerHexDigit(s[1])
      && if HyphenAfter(i) then |s| >= 3 && s[2] == '-' && CanonicalFrom(s[3..], i + 1)
         else CanonicalFrom(s[2..], i + 1)
  }

  /** What `ReadKey` writes is canonical. */
  lemma {:induction false} ReadCanonical(s: string, i: nat)
    requires i <= 16
    ensures ReadKey(s, i).Some? ==> CanonicalFrom(ReadKey(s, i).value.0, i)
    decreases 16 - i
  {
    if i < 16 && |s| >= 2 && IsHexDigit(s[0]) && IsHexDigit(s[1]) {
      var next := ReadKey(AfterByte(s, i), i + 1);
      ReadCanonical(AfterByte(s, i), i + 1);
      if next.Some? {
        var c := ReadKey(s, i).value.0;
        var h: string := if HyphenAfter(i) then "-" else "";
        assert c == [ToLower(s[0]), ToLower(s[1])] + h + next.value.0;
        assert c[2 + |h|..] == next.value.0;
      }
    }
  }

  /** Reading canonical text back gives the same text, whatever follows it. */
  lemma {:induction false} ReadBack(c: string, tail: string, i: nat)
    requires i <= 16 && CanonicalFrom(c, i)
    ensures ReadKey(c + tail, i) == Some((c, tail))
    decreases 16 - i
  {
    if i < 16 {
      var s := c + tail;
      var n := if HyphenAfter(i) then 3 else 2;
      ReadBack(c[n..], tail, i + 1);
      NextByte(c, tail, i, n);
      assert ReadKey(AfterByte(s, i), i + 1) == Some((c[n..], tail));
      assert ToLower(s[0]) == c[0] && ToLower(s[1]) == c[1];
      SplitByte(c, i, n);
    } else {
      assert c + tail == tail;
    }
  }

  /** After the two digits of byte `i` of canonical text, `uuid_in` goes on
      exactly where the text of the next byte begins. */
  lemma NextByte(c: string, tail: string, i: nat, n: nat)
    requires i < 16 && CanonicalFrom(c, i)
    requires n == if HyphenAfter(i) then 3 else 2
    ensures |c| >= n && (c + tail)[0] == c[0] && (c + tail)[1] == c[1]
    ensures AfterByte(c + tail, i) == c[n..] + tail
  {
    if HyphenAfter(i) {
      HyphenAfterOdd(i);
      DropFromConcat(c, tail, 3);
    } else {
      if i < 15 {
        assert IsLowerHexDigit(c[2..][0]);
      }
      DropFromConcat(c, tail, 2);
    }
  }

  /** Canonical text is its first two digits, the hyphen that follows them
      if any, and the rest. */
  lemma SplitByte(c: string, i: nat, n: nat)
    requires i < 16 && CanonicalFrom(c, i)
    requires n == if HyphenAfter(i) then 3 else 2
    ensures [c[0], c[1]] + (if HyphenAfter(i) then "-" else "") + c[n..] == c
  {
    assert c == c[..n] + c[n..];
  }

  lemma HyphenAfterOdd(i: nat)
    requires HyphenAfter(i)
    ensures i % 2 == 1 && i < 15
  {
  }

  /** Dropping a prefix of `w` from `w + tail`. */
  lemma DropFromConcat(w: string, tail: string, n: nat)
    requires n <= |w|
    ensures (w + tail)[n..] == w[n..] + tail
  {
  }

  /** A key is canonical text, and canonical text is its own key: the
      canonical texts are exactly the fixed points of `Key`. */
  lemma KeyIsCanonical(s: string)
    ensures Key(s).Some? ==> IsCanonical(Key(s).value)
    ensures IsCanonical(s) <==> Key(s) == Some(s)
  {
    ReadCanonical(s, 0);
    if |s| > 0 {
      ReadCanonical(s[1..], 0);
    }
    if IsCanonical(s) {
      CanonicalKey(s);
    }
  }

  /** A canonical path id selects the row stored under that same text. */
  lemma CanonicalKey(s: string)
    requires IsCanonical(s)
    ensures Key(s) == Some(s)
  {
    ReadBack(s, "", 0);
    assert s + "" == s;
  }

  /** Canonical text holds no U+0000, so it can be sent as a parameter. */
  lemma CanonicalNulFree(k: string)
    requires IsCanonical(k)
    ensures NulFree(k)
  {
    CanonicalChars(k, 0);
  }

  lemma {:induction false} CanonicalChars(s: string, i: nat)
    requires i <= 16 && CanonicalFrom(s, i)
    ensures forall j :: 0 <= j < |s| ==> IsLowerHexDigit(s[j]) || s[j] == '-'
    decreases 16 - i
  {
    if i < 16 {
      var n := if HyphenAfter(i) then 3 else 2;
      CanonicalChars(s[n..], i + 1);
      forall j | n <= j < |s|
        ensures IsLowerHexDigit(s[j]) || s[j] == '-'
      {
        assert s[j] == s[n..][j - n];
      }
    }
  }

  /** Upper-casing the digits changes neither what `uuid_in` reads nor where
      it stops: the text read is the same and the rest is upper-cased too. */
  lemma {:induction false} ReadUpper(s: string, i: nat)
    requires i <= 16
    ensures ReadKey(Upper(s), i) ==
      if ReadKey(s, i).Some? then Some((ReadKey(s, i).value.0, Upper(ReadKey(s, i).value.1))) else None
    decreases 16 - i
  {
    if i < 16 && |s| >= 2 && IsHexDigit(s[0]) && IsHexDigit(s[1]) {
      var u := Upper(s);
      var n := if |s| > 2 && s[2] == '-' && i % 2 == 1 && i < 15 then 3 else 2;
      assert AfterByte(u, i) == u[n..] == Upper(s[n..]);
      ReadUpper(AfterByte(s, i), i + 1);
    }
  }

  /** The same UUID written with upper-case digits selects the same key. */
  lemma UpperKey(k: string)
    requires IsCanonical(k)
    ensures Key(Upper(k)) == Some(k)
  {
    ReadBack(k, "", 0);
    assert k + "" == k;
    ReadUpper(k, 0);
    assert Upper("") == "";
    assert Upper(k)[0] != '{';
  }

  /** The same UUID in braces selects the same key: one row answers to
      several spellings of its id. */
  lemma BracedKey(k: string)
    requires IsCanonical(k)
    ensures Key("{" + k + "}") == Some(k)
    ensures "{" + k + "}" != k
  {
    var s := "{" + k + "}";
    ReadBack(k, "}", 0);
    assert s[0] == '{' && s[1..] == k + "}";
    assert |s| > |k|;
  }
}
