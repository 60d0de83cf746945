/**
 * A small, reversible text encoding that stands in for the base64url and JSON layers
 * of a compact JSON Web Signature. A token is a list of segments separated by '.',
 * a payload is a list of fields separated by ','; fields are escaped so that neither
 * separator occurs inside them, and integers are written in decimal.
 */
module TextCodec {
  import opened Wrappers

  const ESCAPE: char := '\\'

  // ---------------------------------------------------------------------------
  // Escaping

  function EscapeChar(c: char): string {
    if c == ESCAPE then "\\\\"
    else if c == '.' then "\\p"
    else if c == ',' then "\\c"
    else [c]
  }

  /** The escaped form of `s`: it never contains a segment or field separator. */
  function Escape(s: string): (r: string)
    ensures '.' !in r && ',' !in r
    decreases |s|
  {
    if s == [] then [] else EscapeChar(s[0]) + Escape(s[1..])
  }

  predicate IsEscapeCode(c: char) {
    c == ESCAPE || c == 'p' || c == 'c'
  }

  function EscapedChar(code: char): char
    requires IsEscapeCode(code)
  {
    if code == 'p' then '.' else if code == 'c' then ',' else ESCAPE
  }

  /** Undoes `Escape`; a dangling or unknown escape makes the text malformed. */
  function Unescape(s: string): Option<string>
    decreases |s|
  {
    if s == [] then Some([])
    else if s[0] != ESCAPE then
      match Unescape(s[1..])
      case None => None
      case Some(t) => Some([s[0]] + t)
    else if |s| >= 2 && IsEscapeCode(s[1]) then
      match Unescape(s[2..])
      case None => None
      case Some(t) => Some([EscapedChar(s[1])] + t)
    else None
  }

  lemma {:induction false} UnescapeEscape(s: string)
    ensures Unescape(Escape(s)) == Some(s)
    decreases |s|
  {
    if s != [] {
      var e, rest := EscapeChar(s[0]), Escape(s[1..]);
      assert Escape(s) == e + rest;
      UnescapeEscape(s[1..]);
      if |e| == 1 {
        assert (e + rest)[0] == s[0] && (e + rest)[1..] == rest;
      } else {
        assert (e + rest)[0] == ESCAPE && (e + rest)[2..] == rest;
        assert EscapedChar((e + rest)[1]) == s[0];
      }
      assert [s[0]] + s[1..] == s;
    }
  }

  /** Escapes every element of a list of fields. */
  function EscapeAll(fields: seq<string>): (r: seq<string>)
    ensures |r| == |fields|
    ensures forall k :: 0 <= k < |r| ==> r[k] == Escape(fields[k])
    decreases |fields|
  {
    if fields == [] then [] else [Escape(fields[0])] + EscapeAll(fields[1..])
  }

  /** Unescapes every element; fails if any one of them is malformed. */
  function UnescapeAll(parts: seq<string>): Option<seq<string>>
    decreases |parts|
  {
    if parts == [] then Some([])
    else match (Unescape(parts[0]), UnescapeAll(parts[1..]))
      case (Some(f), Some(fs)) => Some([f] + fs)
      case _ => None
  }

  lemma {:induction false} UnescapeAllEscapeAll(fields: seq<string>)
    ensures UnescapeAll(EscapeAll(fields)) == Some(fields)
    decreases |fields|
  {
    if fields != [] {
      UnescapeEscape(fields[0]);
      UnescapeAllEscapeAll(fields[1..]);
      assert EscapeAll(fields)[1..] == EscapeAll(fields[1..]);
      assert [fields[0]] + fields[1..] == fields;
    }
  }

  // ---------------------------------------------------------------------------
  // Separated lists

  /** `parts` written one after the other with `sep` between neighbours. */
  function Join(parts: seq<string>, sep: char): string
    requires |parts| >= 1
    decreases |parts|
  {
    if |parts| == 1 then parts[0] else parts[0] + [sep] + Join(parts[1..], sep)
  }

  /** Cuts `s` at every occurrence of `sep`; the pieces never contain `sep`. */
  function Split(s: string, sep: char): (parts: seq<string>)
    ensures |parts| >= 1
    ensures forall k :: 0 <= k < |parts| ==> sep !in parts[k]
    decreases |s|
  {
    if s == [] then [[]]
    else
      var rest := Split(s[1..], sep);
      if s[0] == sep then [[]] + rest else [[s[0]] + rest[0]] + rest[1..]
  }

  /** A prefix free of the separator glues onto the first piece. */
  lemma {:induction false} SplitAppend(a: string, b: string, sep: char)
    requires sep !in a
    ensures Split(a + b, sep) == [a + Split(b, sep)[0]] + Split(b, sep)[1..]
    decreases |a|
  {
    var tail := Split(b, sep);
    if a == [] {
      assert a + b == b && a + tail[0] == tail[0];
      assert [tail[0]] + tail[1..] == tail;
    } else {
      assert (a + b)[0] == a[0] && (a + b)[1..] == a[1..] + b;
      SplitAppend(a[1..], b, sep);
      assert [a[0]] + (a[1..] + tail[0]) == a + tail[0];
    }
  }

  lemma SplitWithoutSeparator(s: string, sep: char)
    requires sep !in s
    ensures Split(s, sep) == [s]
  {
    SplitAppend(s, [], sep);
    assert s + [] == s;
  }

  /** Splitting undoes joining when no part contains the separator. */
  lemma {:induction false} SplitJoin(parts: seq<string>, sep: char)
    requires |parts| >= 1
    requires forall k :: 0 <= k < |parts| ==> sep !in parts[k]
    ensures Split(Join(parts, sep), sep) == parts
    decreases |parts|
  {
    if |parts| == 1 {
      SplitWithoutSeparator(parts[0], sep);
    } else {
      var rest := Join(parts[1..], sep);
      assert Join(parts, sep) == parts[0] + ([sep] + rest);
      SplitAppend(parts[0], [sep] + rest, sep);
      SplitJoin(parts[1..], sep);
      assert ([sep] + rest)[0] == sep && ([sep] + rest)[1..] == rest;
      var tail := Split([sep] + rest, sep);
      assert tail == [[]] + parts[1..];
      assert tail[0] == [] && tail[1..] == parts[1..];
      assert parts[0] + tail[0] == parts[0];
      assert [parts[0]] + parts[1..] == parts;
    }
  }

  /** Joining the pieces gives back the text that was split. */
  lemma {:induction false} JoinSplit(s: string, sep: char)
    ensures Join(Split(s, sep), sep) == s
    decreases |s|
  {
    if s != [] {
      var rest := Split(s[1..], sep);
      JoinSplit(s[1..], sep);
      if s[0] == sep {
        assert ([[]] + rest)[1..] == rest;
      } else {
        var parts := [[s[0]] + rest[0]] + rest[1..];
        if |rest| == 1 {
          assert parts == [[s[0]] + rest[0]];
        } else {
          assert parts[1..] == rest[1..];
          assert Join(rest, sep) == rest[0] + [sep] + Join(rest[1..], sep);
        }
        assert [s[0]] + s[1..] == s;
      }
    }
  }

  /** A character that occurs in no part and is not the separator does not occur in the join. */
  lemma {:induction false} JoinAvoids(parts: seq<string>, sep: char, c: char)
    requires |parts| >= 1 && c != sep
    requires forall k :: 0 <= k < |parts| ==> c !in parts[k]
    ensures c !in Join(parts, sep)
    decreases |parts|
  {
    if |parts| > 1 {
      JoinAvoids(parts[1..], sep, c);
    }
  }

  // ---------------------------------------------------------------------------
  // Decimal integers

  predicate IsDigit(c: char) {
    '0' <= c <= '9'
  }

  function DigitChar(d: nat): (c: char)
    requires d < 10
    ensures IsDigit(c)
  {
    ('0' as int + d) as char
  }

  function DigitValue(c: char): nat
    requires IsDigit(c)
  {
    c as int - '0' as int
  }

  /** The decimal numeral of `n`, without leading zeros. */
  function NatText(n: nat): (r: string)
    ensures |r| >= 1
    ensures forall k :: 0 <= k < |r| ==> IsDigit(r[k])
    decreases n
  {
    if n < 10 then [DigitChar(n)] else NatText(n / 10) + [DigitChar(n % 10)]
  }

  /** Reads a non-empty string of decimal digits. */
  function ParseNat(s: string): Option<nat>
    decreases |s|
  {
    if s == [] || !IsDigit(s[|s| - 1]) then None
    else if |s| == 1 then Some(DigitValue(s[0]))
    else match ParseNat(s[..|s| - 1])
      case None => None
      case Some(m) => Some(m * 10 + DigitValue(s[|s| - 1]))
  }

  lemma {:induction false} ParseNatText(n: nat)
    ensures ParseNat(NatText(n)) == Some(n)
    decreases n
  {
    if n >= 10 {
      var s := NatText(n);
      assert s[..|s| - 1] == NatText(n / 10);
      ParseNatText(n / 10);
      assert DigitValue(DigitChar(n % 10)) == n % 10;
    }
  }

  function IntText(i: int): string {
    if i < 0 then "-" + NatText(-i) else NatText(i)
  }

  function ParseInt(s: string): Option<int> {
    if |s| >= 1 && s[0] == '-' then
      match ParseNat(s[1..])
      case None => None
      case Some(n) => Some(0 - n as int)
    else
      match ParseNat(s)
      case None => None
      case Some(n) => Some(n)
  }

  lemma ParseIntText(i: int)
    ensures ParseInt(IntText(i)) == Some(i)
  {
    if i < 0 {
      ParseNatText(-i);
      assert ("-" + NatText(-i))[1..] == NatText(-i);
    } else {
      ParseNatText(i);
      assert IsDigit(NatText(i)[0]);
    }
  }
}
