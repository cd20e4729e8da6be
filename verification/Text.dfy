/**
 Python text as the models need it: `%d` printing, `int(...)` parsing and
 splitting on a separator character.
 */
module Text {
  import opened Prelude

  /** `s.isascii()`. */
  predicate IsAscii(s: string) {
    forall c :: c in s ==> c as int < 128
  }

  // ----- printing integers -----

  function DigitChar(d: nat): char
    requires d < 10
  {
    "0123456789"[d]
  }

  predicate IsDigit(c: char) {
    '0' <= c <= '9'
  }

  function DigitValue(c: char): nat
    requires IsDigit(c)
  {
    c as int - '0' as int
  }

  function NatToString(n: nat): (s: string)
    ensures s != [] && forall c :: c in s ==> IsDigit(c)
  {
    if n < 10 then [DigitChar(n)] else NatToString(n / 10) + [DigitChar(n % 10)]
  }

  /** What `"%d" % n` prints. */
  function IntToString(n: int): (s: string)
    ensures s != [] && forall c :: c in s ==> IsDigit(c) || c == '-'
  {
    if n < 0 then "-" + NatToString(-n) else NatToString(n)
  }

  // ----- parsing integers -----

  /** Digits, with single underscores between digits as `int` allows. */
  function ParseDigits(s: string): Option<nat> {
    if s == [] || !IsDigit(s[|s| - 1]) then None
    else if |s| == 1 then Some(DigitValue(s[0]))
    else FollowedBy(ParseDigits(WithoutLastDigit(s)), s[|s| - 1])
  }

  function WithoutLastDigit(s: string): string
    requires |s| > 1
  {
    if s[|s| - 2] == '_' then s[..|s| - 2] else s[..|s| - 1]
  }

  function FollowedBy(read: Option<nat>, c: char): Option<nat>
    requires IsDigit(c)
  {
    match read
    case None => None
    case Some(n) => Some(10 * n + DigitValue(c))
  }

  predicate IsBlank(c: char) {
    c == ' ' || 9 <= c as int <= 13 || 28 <= c as int <= 31
  }

  function TrimLeft(s: string): string {
    if s != [] && IsBlank(s[0]) then TrimLeft(s[1..]) else s
  }

  function TrimRight(s: string): string {
    if s != [] && IsBlank(s[|s| - 1]) then TrimRight(s[..|s| - 1]) else s
  }

  /** `int(s)` on ASCII text: blanks around, an optional sign, digits. None is a ValueError. */
  function ParseInt(s: string): Option<int> {
    ParseTrimmed(TrimRight(TrimLeft(s)))
  }

  function ParseTrimmed(t: string): Option<int> {
    if t == [] then None
    else if t[0] == '-' then Signed(-1, ParseDigits(t[1..]))
    else if t[0] == '+' then Signed(1, ParseDigits(t[1..]))
    else Signed(1, ParseDigits(t))
  }

  function Signed(sign: int, n: Option<nat>): Option<int> {
    match n
    case None => None
    case Some(v) => Some(sign * v)
  }

  lemma DigitCharValue(d: nat)
    requires d < 10
    ensures IsDigit(DigitChar(d)) && DigitValue(DigitChar(d)) == d
  {
  }

  lemma ParseDigitsLast(s: string, front: string)
    requires |s| > 1 && IsDigit(s[|s| - 1]) && s[|s| - 2] != '_' && front == s[..|s| - 1]
    ensures ParseDigits(s) == FollowedBy(ParseDigits(front), s[|s| - 1])
  {
  }

  lemma {:induction false} ParseDigitsPrinted(n: nat)
    ensures ParseDigits(NatToString(n)) == Some(n)
  {
    DigitCharValue(n % 10);
    if n >= 10 {
      ParseDigitsPrinted(n / 10);
      var s, front := NatToString(n), NatToString(n / 10);
      assert front == s[..|s| - 1] && s[|s| - 1] == DigitChar(n % 10);
      assert front[|front| - 1] in front;
      assert front[|front| - 1] == s[|s| - 2];
      ParseDigitsLast(s, front);
    }
  }

  lemma ParsePrintedSigned(n: int)
    ensures ParseTrimmed(IntToString(n)) == Some(n)
  {
    var m := if n < 0 then -n else n;
    var digits := NatToString(m);
    ParseDigitsPrinted(m);
    assert digits[0] in digits;
    if n < 0 {
      var s := IntToString(n);
      assert s[0] == '-' && s[1..] == digits;
      assert ParseTrimmed(s) == Signed(-1, ParseDigits(digits));
    } else {
      assert IsDigit(digits[0]);
      assert ParseTrimmed(digits) == Signed(1, ParseDigits(digits));
    }
  }

  lemma PrintedHasNoBlanks(n: int)
    ensures var s := IntToString(n); !IsBlank(s[0]) && !IsBlank(s[|s| - 1])
  {
    var s := IntToString(n);
    assert s[0] in s && s[|s| - 1] in s;
  }

  /** `int("%d" % n) == n` for every integer. */
  lemma ParseIntPrinted(n: int)
    ensures ParseInt(IntToString(n)) == Some(n)
  {
    PrintedHasNoBlanks(n);
    NothingToTrim(IntToString(n));
    ParsePrintedSigned(n);
  }

  lemma NothingToTrim(s: string)
    requires s != [] && !IsBlank(s[0]) && !IsBlank(s[|s| - 1])
    ensures TrimRight(TrimLeft(s)) == s
  {
  }

  // ----- splitting -----

  /** `s.split(sep)`: the pieces between separators, at least one. */
  function Split(s: string, sep: char): (pieces: seq<string>)
    ensures |pieces| >= 1
    ensures forall p, i | p in pieces && 0 <= i < |p| :: p[i] != sep
    ensures forall p, c | p in pieces && c in p :: c in s
  {
    if s == [] then [[]]
    else
      var rest := Split(s[1..], sep);
      if s[0] == sep then [[]] + rest
      else [[s[0]] + rest[0]] + rest[1..]
  }

  /** Splitting after a separator-free piece cuts exactly there. */
  lemma {:induction false} SplitPiece(a: string, s: string, sep: char)
    requires sep !in a
    ensures Split(a + [sep] + s, sep) == [a] + Split(s, sep)
  {
    if a == [] {
      assert (a + [sep] + s)[1..] == s;
    } else {
      SplitPiece(a[1..], s, sep);
      assert (a + [sep] + s)[1..] == a[1..] + [sep] + s;
      assert [a[0]] + a[1..] == a;
    }
  }

  lemma {:induction false} SplitWhole(a: string, sep: char)
    requires sep !in a
    ensures Split(a, sep) == [a]
  {
    if a != [] {
      SplitWhole(a[1..], sep);
      assert [a[0]] + a[1..] == a;
    }
  }

  /** `sep.join(pieces)`, of one piece or more. */
  function Join(pieces: seq<string>, sep: char): string
    requires |pieces| >= 1
  {
    if |pieces| == 1 then pieces[0] else pieces[0] + [sep] + Join(pieces[1..], sep)
  }

  /** The pieces of a text, joined by the separator, are the text. */
  lemma {:induction false} JoinedPiecesAreTheText(s: string, sep: char)
    ensures Join(Split(s, sep), sep) == s
  {
    if s != [] {
      JoinedPiecesAreTheText(s[1..], sep);
      var rest := Split(s[1..], sep);
      if s[0] == sep {
        assert ([[]] + rest)[1..] == rest;
      } else {
        var pieces := [[s[0]] + rest[0]] + rest[1..];
        assert pieces[1..] == rest[1..];
      }
      assert [s[0]] + s[1..] == s;
    }
  }

  /** Pieces without the separator, joined by it, are what splitting gives back. */
  lemma {:induction false} JoinedPiecesAreSplit(pieces: seq<string>, sep: char)
    requires |pieces| >= 1 && forall i :: 0 <= i < |pieces| ==> sep !in pieces[i]
    ensures Split(Join(pieces, sep), sep) == pieces
    decreases |pieces|
  {
    if |pieces| == 1 {
      SplitWhole(pieces[0], sep);
    } else {
      JoinedPiecesAreSplit(pieces[1..], sep);
      SplitPiece(pieces[0], Join(pieces[1..], sep), sep);
      assert [pieces[0]] + pieces[1..] == pieces;
    }
  }
}
