/** The string operations the scanners are built from, on sequences of characters. */
module Text {
  import opened Results

  predicate OccursAt(s: string, p: string, i: int) {
    0 <= i <= |s| - |p| && s[i..i + |p|] == p
  }

  function FindFrom(s: string, p: string, i: nat): Option<nat>
    decreases |s| - i
  {
    if i + |p| > |s| then None
    else if s[i..i + |p|] == p then Some(i)
    else FindFrom(s, p, i + 1)
  }

  /** The position of the first occurrence of a pattern. */
  function Find(s: string, p: string): Option<nat> {
    FindFrom(s, p, 0)
  }

  predicate Contains(s: string, p: string) {
    Find(s, p).Some?
  }

  predicate StartsWith(s: string, p: string) {
    |p| <= |s| && s[..|p|] == p
  }

  predicate EndsWith(s: string, p: string) {
    |p| <= |s| && s[|s| - |p|..] == p
  }

  lemma {:induction false} FindFromIsFirst(s: string, p: string, i: nat)
    ensures FindFrom(s, p, i).Some? ==>
              && i <= FindFrom(s, p, i).value
              && OccursAt(s, p, FindFrom(s, p, i).value)
              && forall j :: i <= j < FindFrom(s, p, i).value ==> !OccursAt(s, p, j)
    ensures FindFrom(s, p, i).None? ==> forall j :: i <= j ==> !OccursAt(s, p, j)
    decreases |s| - i
  {
    if i + |p| <= |s| && s[i..i + |p|] != p {
      FindFromIsFirst(s, p, i + 1);
      assert !OccursAt(s, p, i);
    }
  }

  /** `Find` returns the least occurrence, and nothing exactly when there is none. */
  lemma FindIsFirst(s: string, p: string)
    ensures Find(s, p).Some? ==>
              && OccursAt(s, p, Find(s, p).value)
              && forall j :: 0 <= j < Find(s, p).value ==> !OccursAt(s, p, j)
    ensures Find(s, p).None? ==> forall j: int :: !OccursAt(s, p, j)
  {
    FindFromIsFirst(s, p, 0);
  }

  lemma FindAt(s: string, p: string, i: nat)
    requires OccursAt(s, p, i)
    requires forall j :: 0 <= j < i ==> !OccursAt(s, p, j)
    ensures Find(s, p) == Some(i)
  {
    FindIsFirst(s, p);
  }

  lemma FindNothing(s: string, p: string)
    requires forall j: int :: !OccursAt(s, p, j)
    ensures Find(s, p) == None
  {
    FindIsFirst(s, p);
  }

  /** A stretch in which no occurrence starts is skipped. */
  lemma FindSkips(skipped: string, rest: string, p: string)
    requires forall j :: 0 <= j < |skipped| ==> !OccursAt(skipped + rest, p, j)
    ensures Find(skipped + rest, p)
         == match Find(rest, p) { case None => None case Some(i) => Some(|skipped| + i) }
  {
    var s := skipped + rest;
    forall j: int ensures OccursAt(rest, p, j) <==> j >= 0 && OccursAt(s, p, |skipped| + j) {
      OccursInSuffix(skipped, rest, p, j);
    }
    FindIsFirst(rest, p);
    match Find(rest, p)
    case Some(i) =>
      forall j | 0 <= j < |skipped| + i ensures !OccursAt(s, p, j) {
        if j >= |skipped| {
          assert OccursAt(rest, p, j - |skipped|) == OccursAt(s, p, |skipped| + (j - |skipped|));
        }
      }
      assert OccursAt(rest, p, i);
      FindAt(s, p, |skipped| + i);
    case None =>
      forall j: int ensures !OccursAt(s, p, j) {
        if j >= |skipped| {
          assert OccursAt(rest, p, j - |skipped|) == OccursAt(s, p, |skipped| + (j - |skipped|));
        }
      }
      FindNothing(s, p);
  }

  lemma OccursInSuffix(prefix: string, rest: string, p: string, j: int)
    ensures OccursAt(rest, p, j) <==> j >= 0 && OccursAt(prefix + rest, p, |prefix| + j)
  {
    if 0 <= j <= |rest| - |p| {
      assert (prefix + rest)[|prefix| + j..|prefix| + j + |p|] == rest[j..j + |p|];
    }
  }

  /** A position with a differing character is no occurrence. */
  lemma WrongCharacter(s: string, p: string, i: nat, k: nat)
    requires k < |p| && i + k < |s| && s[i + k] != p[k]
    ensures !OccursAt(s, p, i)
  {
    if i + |p| <= |s| {
      assert s[i..i + |p|][k] == s[i + k];
    }
  }

  /** Text without the pattern's first character contains no occurrence's start. */
  lemma NoStart(skipped: string, rest: string, p: string)
    requires p != "" && forall i :: 0 <= i < |skipped| ==> skipped[i] != p[0]
    ensures forall j :: 0 <= j < |skipped| ==> !OccursAt(skipped + rest, p, j)
  {
    forall j | 0 <= j < |skipped| ensures !OccursAt(skipped + rest, p, j) {
      assert (skipped + rest)[j] == skipped[j];
      WrongCharacter(skipped + rest, p, j, 0);
    }
  }

  // ---------------------------------------------------------------- decimal numbers

  function Digit(n: nat): char
    requires n < 10
  {
    "0123456789"[n]
  }

  function DigitValue(c: char): Option<nat> {
    if '0' <= c <= '9' then Some((c - '0') as nat) else None
  }

  /** The decimal numeral of a number, without leading zeros. */
  function Decimal(n: nat): string {
    if n < 10 then [Digit(n)] else Decimal(n / 10) + [Digit(n % 10)]
  }

  function DigitsValue(s: string): Option<nat> {
    if s == "" then Some(0)
    else
      var front := DigitsValue(s[..|s| - 1]);
      var last := DigitValue(s[|s| - 1]);
      if front.Some? && last.Some? then Some(10 * front.value + last.value) else None
  }

  /** Parses an unsigned integer of bounded width: an optional sign `+`, then digits, no overflow. */
  function ParseUnsigned(s: string, bound: nat): Option<nat> {
    var digits := if s != "" && s[0] == '+' then s[1..] else s;
    if digits == "" then None
    else
      match DigitsValue(digits)
      case Some(n) => if n < bound then Some(n) else None
      case None => None
  }

  lemma {:induction false} DecimalIsDigits(n: nat)
    ensures Decimal(n) != ""
    ensures forall i :: 0 <= i < |Decimal(n)| ==> '0' <= Decimal(n)[i] <= '9'
  {
    if n >= 10 {
      DecimalIsDigits(n / 10);
    }
  }

  lemma {:induction false} DigitsOfDecimal(n: nat)
    ensures DigitsValue(Decimal(n)) == Some(n)
  {
    hide Digit, DigitValue;
    var s := Decimal(n);
    ValueOfDigit(n % 10);
    if n < 10 {
      assert s[..0] == "";
    } else {
      DigitsOfDecimal(n / 10);
      assert s[..|s| - 1] == Decimal(n / 10);
    }
  }

  lemma ValueOfDigit(n: nat)
    requires n < 10
    ensures DigitValue(Digit(n)) == Some(n)
  {
  }

  /** Parsing a printed number gives it back exactly when it fits the parser's width. */
  lemma ParseOfDecimal(n: nat, bound: nat)
    ensures ParseUnsigned(Decimal(n), bound) == if n < bound then Some(n) else None
  {
    DecimalIsDigits(n);
    DigitsOfDecimal(n);
  }

  /** A numeral of a number: perhaps a plus sign, perhaps zeros, and then its digits. */
  ghost predicate IsNumeral(s: string, n: nat) {
    exists zeros: nat :: s == Zeros(zeros) + Decimal(n) || s == "+" + (Zeros(zeros) + Decimal(n))
  }

  function Zeros(n: nat): string {
    seq(n, _ => '0')
  }

  /** Digits stand for a number exactly if they are its numeral after some zeros. */
  lemma {:induction false} DigitsAreNumeral(s: string, n: nat)
    ensures s != "" && DigitsValue(s) == Some(n) <==> exists zeros: nat :: s == Zeros(zeros) + Decimal(n)
  {
    hide Digit, DigitValue, Decimal, DigitsValue;
    if s != "" && DigitsValue(s) == Some(n) {
      ValueIsNumeral(s, n);
    }
    if zeros: nat :| s == Zeros(zeros) + Decimal(n) {
      ValueAfterZeros(zeros, n);
      DecimalIsDigits(n);
    }
  }

  lemma {:induction false} ValueIsNumeral(s: string, n: nat)
    requires s != "" && DigitsValue(s) == Some(n)
    ensures exists zeros: nat :: s == Zeros(zeros) + Decimal(n)
  {
    var front, last := s[..|s| - 1], s[|s| - 1];
    assert s == front + [last];
    var rest := DigitsValue(front).value;
    LastDigit(rest, last, n);
    hide Digit, DigitValue, DigitsValue;
    if front == "" {
      assert rest == 0 by { NoDigits(); }
      assert s == Zeros(0) + Decimal(n);
    } else {
      ValueIsNumeral(front, rest);
      var zeros: nat :| front == Zeros(zeros) + Decimal(rest);
      if rest == 0 {
        assert Zeros(zeros + 1) == Zeros(zeros) + "0";
        assert Decimal(0) == "0" by { ZeroIsZero(); }
        assert s == Zeros(zeros + 1) + Decimal(n);
      } else {
        assert s == Zeros(zeros) + Decimal(n);
      }
    }
  }

  lemma NoDigits()
    ensures DigitsValue("") == Some(0)
  {
  }

  lemma ZeroIsZero()
    ensures Decimal(0) == "0"
  {
  }

  /** What the last digit of a numeral says about it. */
  lemma LastDigit(rest: nat, last: char, n: nat)
    requires DigitValue(last).Some? && n == 10 * rest + DigitValue(last).value
    ensures rest == 0 ==> Decimal(n) == [last]
    ensures rest > 0 ==> Decimal(n) == Decimal(rest) + [last]
  {
    assert n % 10 == DigitValue(last).value && n / 10 == rest;
    assert Digit(n % 10) == last;
  }

  lemma {:induction false} ValueAfterZeros(zeros: nat, n: nat)
    ensures DigitsValue(Zeros(zeros) + Decimal(n)) == Some(n)
    decreases n
  {
    hide Digit, DigitValue;
    var s := Zeros(zeros) + Decimal(n);
    ValueOfDigit(n % 10);
    if n < 10 {
      assert s[..|s| - 1] == Zeros(zeros);
      ValueOfZeros(zeros);
    } else {
      ValueAfterZeros(zeros, n / 10);
      assert s[..|s| - 1] == Zeros(zeros) + Decimal(n / 10);
    }
  }

  lemma {:induction false} ValueOfZeros(zeros: nat)
    ensures DigitsValue(Zeros(zeros)) == Some(0)
  {
    if zeros > 0 {
      ValueOfZeros(zeros - 1);
      assert Zeros(zeros)[..zeros - 1] == Zeros(zeros - 1);
    }
  }

  /** Parsing, for every text: exactly the numerals of numbers within the width are read, each as its number. */
  lemma ParsedIff(s: string, bound: nat, n: nat)
    ensures ParseUnsigned(s, bound) == Some(n) <==> n < bound && IsNumeral(s, n)
  {
    var digits := if s != "" && s[0] == '+' then s[1..] else s;
    DigitsAreNumeral(digits, n);
    DecimalIsDigits(n);
    if s != "" && s[0] == '+' {
      assert s == "+" + digits;
      forall zeros: nat ensures s != Zeros(zeros) + Decimal(n) {
        assert (Zeros(zeros) + Decimal(n))[0] != '+';
      }
    } else {
      assert forall zeros: nat :: s != "+" + (Zeros(zeros) + Decimal(n));
    }
    assert forall zeros: nat :: ("+" + (Zeros(zeros) + Decimal(n)))[1..] == Zeros(zeros) + Decimal(n);
  }

  // ---------------------------------------------------------------- white space

  /** The characters with the Unicode property White_Space. */
  predicate IsWhitespace(c: char) {
    || '\t' <= c <= '\r' || c == ' ' || c == '\U{85}' || c == '\U{A0}' || c == '\U{1680}'
    || '\U{2000}' <= c <= '\U{200A}' || c == '\U{2028}' || c == '\U{2029}' || c == '\U{202F}'
    || c == '\U{205F}' || c == '\U{3000}'
  }

  function TrimStart(s: string): string {
    if s != "" && IsWhitespace(s[0]) then TrimStart(s[1..]) else s
  }

  function TrimEnd(s: string): string {
    if s != "" && IsWhitespace(s[|s| - 1]) then TrimEnd(s[..|s| - 1]) else s
  }

  function Trim(s: string): string {
    TrimEnd(TrimStart(s))
  }

  predicate Blank(s: string) {
    forall i :: 0 <= i < |s| ==> IsWhitespace(s[i])
  }

  lemma {:induction false} StartIsTrimmed(s: string)
    ensures exists i :: 0 <= i <= |s| && TrimStart(s) == s[i..] && Blank(s[..i])
    ensures TrimStart(s) != "" ==> !IsWhitespace(TrimStart(s)[0])
  {
    hide IsWhitespace, Blank;
    if s != "" && IsWhitespace(s[0]) {
      var rest := s[1..];
      StartIsTrimmed(rest);
      var i :| 0 <= i <= |rest| && TrimStart(rest) == rest[i..] && Blank(rest[..i]);
      BlankAppend(s, i);
      assert rest[i..] == s[i + 1..];
    } else {
      NothingIsBlank(s);
      assert s == s[0..];
    }
  }

  lemma BlankAppend(s: string, i: nat)
    requires i < |s| && IsWhitespace(s[0]) && Blank(s[1..][..i])
    ensures Blank(s[..i + 1])
  {
    hide IsWhitespace;
    assert s[..i + 1] == [s[0]] + s[1..][..i];
  }

  lemma NothingIsBlank(s: string)
    ensures Blank(s[..0])
  {
  }

  lemma {:induction false} EndIsTrimmed(s: string)
    ensures exists j :: 0 <= j <= |s| && TrimEnd(s) == s[..j] && Blank(s[j..])
    ensures TrimEnd(s) != "" ==> !IsWhitespace(TrimEnd(s)[|TrimEnd(s)| - 1])
  {
    hide IsWhitespace, Blank;
    if s != "" && IsWhitespace(s[|s| - 1]) {
      var front := s[..|s| - 1];
      EndIsTrimmed(front);
      var j :| 0 <= j <= |front| && TrimEnd(front) == front[..j] && Blank(front[j..]);
      BlankBefore(s, j);
      assert front[..j] == s[..j];
    } else {
      NothingIsBlank(s);
      assert s == s[..|s|] && s[|s|..] == s[..0];
    }
  }

  lemma BlankBefore(s: string, j: nat)
    requires j < |s| && IsWhitespace(s[|s| - 1]) && Blank(s[..|s| - 1][j..])
    ensures Blank(s[j..])
  {
    hide IsWhitespace;
    assert s[j..] == s[..|s| - 1][j..] + [s[|s| - 1]];
  }

  /** A text trimmed: white space around it is gone, and none is left at its ends. */
  ghost predicate IsTrimmed(s: string, t: string) {
    && (exists i, j :: 0 <= i <= j <= |s| && t == s[i..j] && Blank(s[..i]) && Blank(s[j..]))
    && (t != "" ==> !IsWhitespace(t[0]) && !IsWhitespace(t[|t| - 1]))
  }

  lemma TrimTrims(s: string)
    ensures IsTrimmed(s, Trim(s)) && (Trim(s) == "" <==> Blank(s))
  {
    hide IsWhitespace, TrimStart, TrimEnd, Blank;
    StartIsTrimmed(s);
    var start := TrimStart(s);
    EndIsTrimmed(start);
    var i :| 0 <= i <= |s| && start == s[i..] && Blank(s[..i]);
    var j :| 0 <= j <= |start| && Trim(s) == start[..j] && Blank(start[j..]);
    Sliced(s, i, j);
    assert Trim(s) != "" ==> Trim(s)[0] == start[0];
    EmptyIffBlank(s, Trim(s));
  }

  lemma EmptyIffBlank(s: string, t: string)
    requires IsTrimmed(s, t)
    ensures t == "" <==> Blank(s)
  {
    hide IsWhitespace, Blank;
    var i, j :| 0 <= i <= j <= |s| && t == s[i..j] && Blank(s[..i]) && Blank(s[j..]);
    BlankParts(s[..i], s[j..]);
    assert i == j ==> s[..i] + s[j..] == s;
    BlankEverywhere(s, i);
    assert i < j ==> t[0] == s[i];
  }

  lemma Sliced(s: string, i: nat, j: nat)
    requires i + j <= |s|
    ensures s[i..][..j] == s[i..i + j] && s[i..][j..] == s[i + j..]
  {
  }

  lemma BlankParts(a: string, b: string)
    ensures Blank(a) && Blank(b) ==> Blank(a + b)
  {
    hide IsWhitespace;
  }

  lemma BlankEverywhere(s: string, i: nat)
    ensures Blank(s) && i < |s| ==> IsWhitespace(s[i])
  {
    hide IsWhitespace;
  }

  /** The characters of that property, one by one. */
  lemma WhitespaceIs(c: char)
    ensures IsWhitespace(c)
       <==> c in ['\t', '\n', '\U{B}', '\U{C}', '\r', ' ', '\U{85}', '\U{A0}', '\U{1680}', '\U{2000}', '\U{2001}',
                  '\U{2002}', '\U{2003}', '\U{2004}', '\U{2005}', '\U{2006}', '\U{2007}', '\U{2008}', '\U{2009}',
                  '\U{200A}', '\U{2028}', '\U{2029}', '\U{202F}', '\U{205F}', '\U{3000}']
  {
  }

  lemma TrimOfDecimal(n: nat)
    ensures Trim(Decimal(n)) == Decimal(n)
  {
    DecimalIsDigits(n);
  }

  /** The first white-space-separated word, or nothing. */
  function FirstWord(s: string): string {
    WordPrefix(TrimStart(s))
  }

  function WordPrefix(s: string): string {
    if s == "" || IsWhitespace(s[0]) then "" else [s[0]] + WordPrefix(s[1..])
  }

  function TrimEndSlashes(s: string): string {
    if s != "" && s[|s| - 1] == '/' then TrimEndSlashes(s[..|s| - 1]) else s
  }

  // ---------------------------------------------------------------- sorting

  /** Lexicographic order by character. */
  predicate LessOrEqual(a: string, b: string) {
    a == "" || (b != "" && (a[0] < b[0] || (a[0] == b[0] && LessOrEqual(a[1..], b[1..]))))
  }

  function Insert(x: string, sorted: seq<string>): seq<string> {
    if sorted == [] || LessOrEqual(x, sorted[0]) then [x] + sorted else [sorted[0]] + Insert(x, sorted[1..])
  }

  function Sorted(xs: seq<string>): seq<string> {
    if xs == [] then [] else Insert(xs[0], Sorted(xs[1..]))
  }

  predicate IsSorted(xs: seq<string>) {
    |xs| < 2 || (LessOrEqual(xs[0], xs[1]) && IsSorted(xs[1..]))
  }

  lemma {:induction false} TotalOrder(a: string, b: string)
    ensures LessOrEqual(a, b) || LessOrEqual(b, a)
    ensures LessOrEqual(a, b) && LessOrEqual(b, a) ==> a == b
  {
    if a != "" && b != "" {
      TotalOrder(a[1..], b[1..]);
      assert a == [a[0]] + a[1..] && b == [b[0]] + b[1..];
    }
  }

  /** The texts agree up to here, and here the first has the lesser character. */
  predicate DiffersAt(a: string, b: string, i: int) {
    0 <= i < |a| && i < |b| && a[..i] == b[..i] && a[i] < b[i]
  }

  lemma DiffersLater(a: string, b: string, i: int)
    requires a != "" && b != "" && a[0] == b[0] && i >= 0
    ensures DiffersAt(a[1..], b[1..], i) <==> DiffersAt(a, b, i + 1)
  {
    if i + 1 <= |a| && i + 1 <= |b| {
      assert a[..i + 1] == [a[0]] + a[1..][..i] && b[..i + 1] == [b[0]] + b[1..][..i];
      assert a[..i + 1][1..] == a[1..][..i] && b[..i + 1][1..] == b[1..][..i];
    }
  }

  lemma FrontLater(a: string, b: string)
    requires a != "" && b != ""
    ensures a <= b <==> a[0] == b[0] && a[1..] <= b[1..]
  {
    assert a == [a[0]] + a[1..] && b == [b[0]] + b[1..];
  }

  /** The order of two texts is that of their first difference, and a front comes before the whole. */
  lemma {:induction false} OrderedIff(a: string, b: string)
    ensures LessOrEqual(a, b) <==> a <= b || exists i :: DiffersAt(a, b, i)
  {
    if a != "" && b != "" {
      OrderedIff(a[1..], b[1..]);
      FrontLater(a, b);
      if a[0] == b[0] {
        assert !DiffersAt(a, b, 0);
        if i :| DiffersAt(a[1..], b[1..], i) {
          DiffersLater(a, b, i);
        }
        if i :| DiffersAt(a, b, i) {
          DiffersLater(a, b, i - 1);
        }
      } else {
        assert a[..0] == b[..0];
        assert DiffersAt(a, b, 0) <==> a[0] < b[0];
        forall i | i > 0 ensures !DiffersAt(a, b, i) {
          FirstDecides(a, b, i);
        }
      }
    }
  }

  lemma FirstDecides(a: string, b: string, i: int)
    requires a != "" && b != "" && a[0] != b[0] && i > 0
    ensures !DiffersAt(a, b, i)
  {
    if i < |a| && i < |b| {
      assert a[..i][0] == a[0] && b[..i][0] == b[0];
    }
  }

  lemma {:induction false} TransitiveOrder(a: string, b: string, c: string)
    requires LessOrEqual(a, b) && LessOrEqual(b, c)
    ensures LessOrEqual(a, c)
  {
    if a != "" && a[0] == b[0] && b[0] == c[0] {
      TransitiveOrder(a[1..], b[1..], c[1..]);
    }
  }

  lemma {:induction false} InsertAdds(x: string, sorted: seq<string>)
    ensures multiset(Insert(x, sorted)) == multiset(sorted) + multiset{x} && Insert(x, sorted) != []
    ensures Insert(x, sorted)[0] == x || (sorted != [] && Insert(x, sorted)[0] == sorted[0])
  {
    hide LessOrEqual;
    if sorted != [] && !LessOrEqual(x, sorted[0]) {
      var head, tail := sorted[0], sorted[1..];
      InsertAdds(x, tail);
      assert sorted == [head] + tail;
      assert multiset([head] + Insert(x, tail)) == multiset{head} + multiset(Insert(x, tail));
    }
  }

  lemma {:induction false} InsertSorts(x: string, sorted: seq<string>)
    requires IsSorted(sorted)
    ensures IsSorted(Insert(x, sorted)) && multiset(Insert(x, sorted)) == multiset(sorted) + multiset{x}
  {
    hide LessOrEqual;
    InsertAdds(x, sorted);
    if sorted == [] {
    } else if LessOrEqual(x, sorted[0]) {
      assert ([x] + sorted)[1..] == sorted;
    } else {
      var head, tail := sorted[0], sorted[1..];
      TotalOrder(x, head);
      InsertSorts(x, tail);
      InsertAdds(x, tail);
      assert ([head] + Insert(x, tail))[1..] == Insert(x, tail);
    }
  }

  /** The sorting used for element kinds: ordered and a permutation of its input. */
  lemma {:induction false} SortedSorts(xs: seq<string>)
    ensures IsSorted(Sorted(xs)) && multiset(Sorted(xs)) == multiset(xs)
  {
    if xs != [] {
      SortedSorts(xs[1..]);
      InsertSorts(xs[0], Sorted(xs[1..]));
      assert xs == [xs[0]] + xs[1..];
    }
  }

  lemma {:induction false} HeadIsLeast(xs: seq<string>, x: string)
    requires IsSorted(xs) && x in xs
    ensures LessOrEqual(xs[0], x)
  {
    TotalOrder(x, x);
    if x != xs[0] {
      HeadIsLeast(xs[1..], x);
      TransitiveOrder(xs[0], xs[1], x);
    }
  }

  lemma SameLeast(a: seq<string>, b: seq<string>)
    requires IsSorted(a) && IsSorted(b) && a != [] && multiset(a) == multiset(b)
    ensures b != [] && a[0] == b[0]
  {
    assert a[0] in multiset(b);
    assert b[0] in multiset(a);
    HeadIsLeast(a, b[0]);
    HeadIsLeast(b, a[0]);
    TotalOrder(a[0], b[0]);
  }

  /** Order and contents determine a list, so a sorted permutation is the sort. */
  lemma {:induction false} SortedIsUnique(a: seq<string>, b: seq<string>)
    requires IsSorted(a) && IsSorted(b) && multiset(a) == multiset(b)
    ensures a == b
  {
    if a == [] {
      assert |multiset(b)| == 0;
    } else {
      SameLeast(a, b);
      var x, restA, restB := a[0], a[1..], b[1..];
      assert a == [x] + restA && b == [x] + restB;
      assert multiset(restA) == multiset(a) - multiset{x};
      assert multiset(restB) == multiset(b) - multiset{x};
      SortedIsUnique(restA, restB);
    }
  }
}
