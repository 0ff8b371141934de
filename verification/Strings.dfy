/** Splitting, joining and decimal printing of strings, as Go's strings and strconv packages do them. */
module Strings {

  datatype Option<+T> = None | Some(value: T)

  /** strings.Split with a one-character separator: never empty. */
  function Split(s: string, sep: char): (parts: seq<string>)
    ensures |parts| >= 1
    ensures forall p :: p in parts ==> sep !in p
  {
    if s == "" then [""]
    else Cons(s[0], Split(s[1..], sep), sep)
  }

  /** One step of Split: a character goes in front of the parts of the rest. */
  function Cons(c: char, rest: seq<string>, sep: char): (parts: seq<string>)
    requires |rest| > 0
    ensures |parts| > 0
    ensures (forall p :: p in rest ==> sep !in p) ==> forall p :: p in parts ==> sep !in p
  {
    if c == sep then [""] + rest else [[c] + rest[0]] + rest[1..]
  }

  /** strings.Join with a one-character separator. */
  function Join(parts: seq<string>, sep: char): string {
    if |parts| == 0 then ""
    else if |parts| == 1 then parts[0]
    else parts[0] + [sep] + Join(parts[1..], sep)
  }

  lemma ConsAppend(c: char, front: seq<string>, back: seq<string>, sep: char)
    requires |front| > 0
    ensures Cons(c, front + back, sep) == Cons(c, front, sep) + back
  {
    assert (front + back)[1..] == front[1..] + back;
  }

  /** Splitting distributes over any separator that stands in the string. */
  lemma {:induction false} SplitAtSeparator(a: string, b: string, sep: char)
    ensures Split(a + [sep] + b, sep) == Split(a, sep) + Split(b, sep)
  {
    var whole := a + [sep] + b;
    if a == "" {
      assert whole[1..] == b;
    } else {
      SplitAtSeparator(a[1..], b, sep);
      assert whole[1..] == a[1..] + [sep] + b;
      ConsAppend(a[0], Split(a[1..], sep), Split(b, sep), sep);
    }
  }

  lemma {:induction false} SplitWithoutSeparator(a: string, sep: char)
    requires sep !in a
    ensures Split(a, sep) == [a]
  {
    if a != "" {
      SplitWithoutSeparator(a[1..], sep);
      assert a == [a[0]] + a[1..];
    }
  }

  lemma {:induction false} SplitJoin(parts: seq<string>, sep: char)
    requires |parts| > 0
    requires forall p :: p in parts ==> sep !in p
    ensures Split(Join(parts, sep), sep) == parts
  {
    SplitWithoutSeparator(parts[0], sep);
    if |parts| > 1 {
      SplitAtSeparator(parts[0], Join(parts[1..], sep), sep);
      SplitJoin(parts[1..], sep);
    }
  }

  lemma {:induction false} JoinSplit(s: string, sep: char)
    ensures Join(Split(s, sep), sep) == s
  {
    if s != "" {
      JoinSplit(s[1..], sep);
      var rest := Split(s[1..], sep);
      if s[0] == sep {
        assert ([""] + rest)[1..] == rest;
        assert s == [sep] + s[1..];
      } else {
        var parts := [[s[0]] + rest[0]] + rest[1..];
        assert parts[1..] == rest[1..];
        assert s == [s[0]] + s[1..];
      }
    }
  }

  lemma {:induction false} JoinConcat(a: seq<string>, b: seq<string>, sep: char)
    requires |a| > 0 && |b| > 0
    ensures Join(a + b, sep) == Join(a, sep) + [sep] + Join(b, sep)
  {
    if |a| == 1 {
      assert (a + b)[1..] == b;
    } else {
      JoinConcat(a[1..], b, sep);
      assert (a + b)[1..] == a[1..] + b;
    }
  }

  predicate HasSuffix(s: string, suffix: string) {
    |suffix| <= |s| && s[|s| - |suffix|..] == suffix
  }

  /** strings.TrimPrefix of one slash. */
  function TrimSlash(s: string): string {
    if |s| > 0 && s[0] == '/' then s[1..] else s
  }

  // ---- decimal numbers ----

  const MIN_INT64 := -0x8000_0000_0000_0000
  const MAX_INT64 := 0x7fff_ffff_ffff_ffff

  predicate IsInt64(i: int) { MIN_INT64 <= i <= MAX_INT64 }

  function DigitChar(d: nat): char
    requires d < 10
  {
    '0' + d as char
  }

  predicate IsDigit(c: char) { '0' <= c <= '9' }

  function Digits(n: nat): (s: string)
    ensures |s| > 0
    ensures forall c :: c in s ==> IsDigit(c)
  {
    if n < 10 then [DigitChar(n)] else Digits(n / 10) + [DigitChar(n % 10)]
  }

  function ParseDigits(s: string): Option<nat> {
    if s == "" || !IsDigit(s[|s| - 1]) then None
    else
      var d := (s[|s| - 1] - '0') as nat;
      if |s| == 1 then Some(d)
      else
        match ParseDigits(s[..|s| - 1])
        case None => None
        case Some(n) => Some(10 * n + d)
  }

  /** fmt's %d. */
  function FormatInt(i: int): string {
    if i < 0 then "-" + Digits(-i) else Digits(i)
  }

  /** strconv.Atoi on a 64-bit platform; None is its error. */
  function Atoi(s: string): Option<int> {
    if s == "" then None
    else
      var negative := s[0] == '-';
      var digits := if negative || s[0] == '+' then s[1..] else s;
      match ParseDigits(digits)
      case None => None
      case Some(n) =>
        var i := if negative then 0 - n else n as int;
        if IsInt64(i) then Some(i) else None
  }

  lemma {:induction false} ParsePrintedDigits(n: nat)
    ensures ParseDigits(Digits(n)) == Some(n)
  {
    if n >= 10 {
      ParsePrintedDigits(n / 10);
      var s := Digits(n);
      assert s[..|s| - 1] == Digits(n / 10);
    }
  }

  lemma AtoiDigits(n: nat)
    ensures Atoi(Digits(n)) == if n <= MAX_INT64 then Some(n) else None
    ensures Atoi("-" + Digits(n)) == if MIN_INT64 <= 0 - n then Some(0 - n) else None
  {
    ParsePrintedDigits(n);
    var s := Digits(n);
    assert s[0] in s;
    assert ("-" + s)[1..] == s;
    hide Digits, ParseDigits;
  }

  lemma AtoiFormatInt(i: int)
    requires IsInt64(i)
    ensures Atoi(FormatInt(i)) == Some(i)
  {
    AtoiDigits(if i < 0 then -i else i);
    hide Atoi, Digits;
  }
}
