/** The Python string built-ins the port-spec parser relies on: `str.split` with a
    one-character separator, `int()` on a token, and `str()` of a non-negative int. */
module Text {
  import opened Wrappers

  /** Puts `sep` between consecutive parts: the inverse of Split. */
  function Join(parts: seq<string>, sep: char): string
    requires |parts| >= 1
  {
    if |parts| == 1 then parts[0] else parts[0] + [sep] + Join(parts[1..], sep)
  }

  /** Prefixing the first part with `c` prefixes the joined string with `c`. */
  lemma JoinConsFirst(c: char, parts: seq<string>, sep: char)
    requires |parts| >= 1
    ensures Join([[c] + parts[0]] + parts[1..], sep) == [c] + Join(parts, sep)
  {
    var moved := [[c] + parts[0]] + parts[1..];
    assert moved[1..] == parts[1..];
  }

  /** `s.split(sep)`: the pieces between occurrences of `sep`, empty pieces included. */
  function Split(s: string, sep: char): (parts: seq<string>)
    ensures |parts| >= 1
  {
    if s == [] then [[]]
    else
      var rest := Split(s[1..], sep);
      if s[0] == sep then [[]] + rest else [[s[0]] + rest[0]] + rest[1..]
  }

  /** There is one piece more than there are separators. */
  lemma {:induction false} SplitCount(s: string, sep: char)
    ensures |Split(s, sep)| == multiset(s)[sep] + 1
  {
    if s != [] {
      SplitCount(s[1..], sep);
      assert s == [s[0]] + s[1..];
      assert multiset(s) == multiset([s[0]]) + multiset(s[1..]);
    }
  }

  /** No piece holds the separator, and joining the pieces gives the string back. */
  lemma {:induction false} SplitJoin(s: string, sep: char)
    ensures forall i :: 0 <= i < |Split(s, sep)| ==> sep !in Split(s, sep)[i]
    ensures Join(Split(s, sep), sep) == s
  {
    if s != [] {
      var rest := Split(s[1..], sep);
      SplitJoin(s[1..], sep);
      assert s == [s[0]] + s[1..];
      if s[0] == sep {
        assert ([[]] + rest)[1..] == rest;
      } else {
        JoinConsFirst(s[0], rest, sep);
        var parts := Split(s, sep);
        assert parts[0] == [s[0]] + rest[0] && parts[1..] == rest[1..];
      }
    }
  }

  /** A string free of the separator splits into itself alone. */
  lemma {:induction false} SplitWithoutSep(s: string, sep: char)
    requires sep !in s
    ensures Split(s, sep) == [s]
  {
    if s != [] {
      assert s == [s[0]] + s[1..];
      SplitWithoutSep(s[1..], sep);
    }
  }

  /** Splitting `head + sep + tail`, where `head` holds no separator, yields `head`
      followed by the pieces of `tail`. */
  lemma {:induction false} SplitAfterFirst(head: string, sep: char, tail: string)
    requires sep !in head
    ensures Split(head + [sep] + tail, sep) == [head] + Split(tail, sep)
  {
    if head == [] {
      assert head + [sep] + tail == [sep] + tail;
      SplitCons(sep, tail, sep);
    } else {
      var c, t := head[0], head[1..] + [sep] + tail;
      calc {
        Split(head + [sep] + tail, sep);
        { assert head + [sep] + tail == [c] + t; }
        Split([c] + t, sep);
        { SplitCons(c, t, sep); }
        [[c] + Split(t, sep)[0]] + Split(t, sep)[1..];
        { SplitAfterFirst(head[1..], sep, tail); }
        [[c] + head[1..]] + Split(tail, sep);
        { assert [c] + head[1..] == head; }
        [head] + Split(tail, sep);
      }
    }
  }

  /** One step of Split, on the first character. */
  lemma SplitCons(c: char, t: string, sep: char)
    ensures Split([c] + t, sep)
            == if c == sep then [[]] + Split(t, sep) else [[c] + Split(t, sep)[0]] + Split(t, sep)[1..]
  {
    assert ([c] + t)[1..] == t;
  }

  /** Split is the only way to cut `s` into separator-free pieces that join back to
      `s`: the pieces are determined by the string. */
  lemma {:induction false} SplitUnique(parts: seq<string>, sep: char)
    requires |parts| >= 1
    requires forall i :: 0 <= i < |parts| ==> sep !in parts[i]
    ensures Split(Join(parts, sep), sep) == parts
  {
    if |parts| == 1 {
      SplitWithoutSep(parts[0], sep);
    } else {
      SplitAfterFirst(parts[0], sep, Join(parts[1..], sep));
      SplitUnique(parts[1..], sep);
      assert [parts[0]] + parts[1..] == parts;
    }
  }

  predicate IsDigit(c: char) {
    '0' <= c <= '9'
  }

  /** What `int()` accepts in this model: one or more ASCII decimal digits. */
  predicate IsDigits(s: string) {
    s != [] && forall i :: 0 <= i < |s| ==> IsDigit(s[i])
  }

  function DigitOf(c: char): (d: nat)
    requires IsDigit(c)
  {
    c as int - '0' as int
  }

  /** The decimal value of a digit string, most significant digit first. */
  function DigitsValue(s: string): nat
    requires forall i :: 0 <= i < |s| ==> IsDigit(s[i])
  {
    if s == [] then 0 else DigitsValue(s[..|s| - 1]) * 10 + DigitOf(s[|s| - 1])
  }

  /** The characters `int()` skips around a number: the ASCII whitespace (tab to
      carriage return, and the space) and the non-ASCII Unicode spaces and line or
      paragraph separators. The separators 0x1C to 0x1F, which `str.isspace`
      accepts, are never skipped: only non-ASCII spaces are rewritten to ' ' before
      the digit parser runs, and that parser skips ASCII whitespace only. */
  predicate IsSpace(c: char) {
    var k := c as int;
    || 9 <= k <= 13 || k == 32 || k == 0x85 || k == 0xA0 || k == 0x1680
    || 0x2000 <= k <= 0x200A || k == 0x2028 || k == 0x2029 || k == 0x202F
    || k == 0x205F || k == 0x3000
  }

  predicate AllSpace(s: string) {
    forall i :: 0 <= i < |s| ==> IsSpace(s[i])
  }

  /** The string without the whitespace `int()` skips at its start. */
  function StripLeft(s: string): string
  {
    if s != [] && IsSpace(s[0]) then StripLeft(s[1..]) else s
  }

  /** The string without the whitespace `int()` skips at its end. */
  function StripRight(s: string): string
  {
    if s != [] && IsSpace(s[|s| - 1]) then StripRight(s[..|s| - 1]) else s
  }

  /** What remains of a string once an optional leading '+' is dropped. */
  function Unsigned(s: string): string
  {
    if s != [] && s[0] == '+' then s[1..] else s
  }

  /** `int(s)` on a string without '-': surrounding whitespace is ignored, one
      leading '+' is allowed, and the rest must be decimal digits (leading zeros
      allowed); None where Python raises ValueError. */
  function ParseInt(s: string): Option<nat>
  {
    var digits := Unsigned(StripRight(StripLeft(s)));
    if IsDigits(digits) then Some(DigitsValue(digits)) else None
  }

  function DigitChar(d: nat): char
    requires d < 10
  {
    ('0' as int + d) as char
  }

  /** `str(n)` for a non-negative int: its decimal digits, without leading zeros. */
  function NatToString(n: nat): (s: string)
    ensures IsDigits(s)
    ensures s[0] == '0' <==> n == 0
  {
    if n < 10 then [DigitChar(n)] else NatToString(n / 10) + [DigitChar(n % 10)]
  }

  /** The digits of `str(n)` spell n. */
  lemma {:induction false} NatToStringValue(n: nat)
    ensures DigitsValue(NatToString(n)) == n
  {
    var s := NatToString(n);
    if n < 10 {
      assert s == [DigitChar(n)] && s[..0] == [];
      assert DigitsValue(s) == DigitsValue([]) * 10 + DigitOf(s[0]);
      assert DigitOf(s[0]) == n;
    } else {
      assert s[..|s| - 1] == NatToString(n / 10);
      NatToStringValue(n / 10);
      assert DigitOf(s[|s| - 1]) == n % 10;
    }
  }

  /** `int(str(n)) == n`. */
  lemma ParseNatToString(n: nat)
    ensures ParseInt(NatToString(n)) == Some(n)
  {
    ParsePadded([], false, n, []);
    assert [] + "" + NatToString(n) + [] == NatToString(n);
  }

  /** Leading whitespace is dropped up to the first other character. */
  lemma {:induction false} StripLeftPadding(pre: string, s: string)
    requires AllSpace(pre) && (s == [] || !IsSpace(s[0]))
    ensures StripLeft(pre + s) == s
  {
    if pre == [] {
      assert pre + s == s;
    } else {
      assert (pre + s)[1..] == pre[1..] + s;
      StripLeftPadding(pre[1..], s);
    }
  }

  /** Trailing whitespace is dropped back to the last other character. */
  lemma {:induction false} StripRightPadding(s: string, post: string)
    requires AllSpace(post) && (s == [] || !IsSpace(s[|s| - 1]))
    ensures StripRight(s + post) == s
  {
    if post == [] {
      assert s + post == s;
    } else {
      var init := post[..|post| - 1];
      assert (s + post)[..|s + post| - 1] == s + init;
      StripRightPadding(s, init);
    }
  }

  /** Stripping removes exactly the whitespace around a body that neither starts
      nor ends with whitespace. */
  lemma StripPadding(pre: string, body: string, post: string)
    requires AllSpace(pre) && AllSpace(post)
    requires body != [] && !IsSpace(body[0]) && !IsSpace(body[|body| - 1])
    ensures StripRight(StripLeft(pre + body + post)) == body
  {
    assert pre + body + post == pre + (body + post);
    assert (body + post)[0] == body[0];
    StripLeftPadding(pre, body + post);
    StripRightPadding(body, post);
  }

  /** `int()` reads `str(n)` back as n whatever whitespace surrounds it and whether
      or not a '+' precedes it, as in `int(" +80 ") == 80`. */
  lemma ParsePadded(pre: string, plus: bool, n: nat, post: string)
    requires AllSpace(pre) && AllSpace(post)
    ensures ParseInt(pre + (if plus then "+" else "") + NatToString(n) + post) == Some(n)
  {
    var sign := if plus then "+" else "";
    var d := NatToString(n);
    var body := sign + d;
    assert IsDigit(d[0]) && IsDigit(d[|d| - 1]);
    assert body[0] == (if plus then '+' else d[0]) && body[|body| - 1] == d[|d| - 1];
    StripPadding(pre, body, post);
    assert pre + sign + d + post == pre + body + post;
    if plus {
      assert body[1..] == d;
    }
    assert Unsigned(body) == d;
    NatToStringValue(n);
  }

  /** Whitespace alone, or nothing at all, is not a number. */
  lemma BlankNotNumber(s: string)
    requires AllSpace(s)
    ensures ParseInt(s) == None
  {
    StripLeftPadding(s, []);
    assert s + [] == s;
  }

  /** Stripping trailing whitespace keeps a first character that is not whitespace. */
  lemma {:induction false} StripRightKeepsHead(s: string)
    requires s != [] && !IsSpace(s[0])
    ensures StripRight(s) != [] && StripRight(s)[0] == s[0]
    decreases |s|
  {
    if IsSpace(s[|s| - 1]) {
      var t := s[..|s| - 1];
      assert t != [] && t[0] == s[0];
      StripRightKeepsHead(t);
    }
  }

  /** The information separators 0x1C to 0x1F that `str.isspace` accepts are not
      whitespace to `int()`: a string starting with one, such as `"\x1c80"`,
      raises ValueError. */
  lemma SeparatorNotSkipped(s: string)
    requires s != [] && 28 <= s[0] as int <= 31
    ensures ParseInt(s) == None
  {
    assert StripLeft(s) == s;
    StripRightKeepsHead(s);
    var t := StripRight(s);
    assert Unsigned(t) == t && !IsDigit(t[0]);
  }
}
