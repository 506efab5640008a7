/** Reading the member name off a verbose archive listing line, byte by byte. */
module TarListing {
  import opened Results
  import opened Primitives

  predicate AsciiWhitespace(b: Byte) {
    b == 0x20 || b == 0x09 || b == 0x0A || b == 0x0C || b == 0x0D
  }

  /** The five bytes that separate fields. */
  lemma WhitespaceIs(b: Byte)
    ensures AsciiWhitespace(b) <==> b as int in {9, 10, 12, 13, 32}
  {
  }

  /** The first position from one on that is not, or is, white space. */
  function SkipSpace(line: seq<Byte>, i: nat): nat
    requires i <= |line|
    decreases |line| - i
  {
    if i < |line| && AsciiWhitespace(line[i]) then SkipSpace(line, i + 1) else i
  }

  function SkipField(line: seq<Byte>, i: nat): nat
    requires i <= |line|
    decreases |line| - i
  {
    if i < |line| && !AsciiWhitespace(line[i]) then SkipField(line, i + 1) else i
  }

  lemma {:induction false} SkipBounds(line: seq<Byte>, i: nat)
    requires i <= |line|
    ensures i <= SkipSpace(line, i) <= |line| && i <= SkipField(line, i) <= |line|
    ensures forall j :: i <= j < SkipSpace(line, i) ==> AsciiWhitespace(line[j])
    ensures forall j :: i <= j < SkipField(line, i) ==> !AsciiWhitespace(line[j])
    ensures SkipSpace(line, i) < |line| ==> !AsciiWhitespace(line[SkipSpace(line, i)])
    ensures SkipField(line, i) < |line| ==> AsciiWhitespace(line[SkipField(line, i)])
    decreases |line| - i
  {
    if i < |line| {
      SkipBounds(line, i + 1);
    }
  }

  /** Skips fields, each with the white space before it; nothing when the line ends too early. */
  function AfterFields(line: seq<Byte>, fields: nat, i: nat): Option<nat>
    requires i <= |line|
  {
    if fields == 0 then Some(i)
    else
      SkipBounds(line, i);
      var start := SkipSpace(line, i);
      if start == |line| then None
      else
        SkipBounds(line, start);
        AfterFields(line, fields - 1, SkipField(line, start))
  }

  function RemainderFrom(line: seq<Byte>, fields: nat, start: nat): Option<seq<Byte>>
    requires start <= |line|
  {
    match AfterFields(line, fields, start)
    case None => None
    case Some(i) =>
      AfterFieldsBounds(line, fields, start);
      SkipBounds(line, i);
      var index := SkipSpace(line, i);
      if index < |line| then Some(line[index..]) else None
  }

  function RemainderAfterFields(line: seq<Byte>, fields: nat): Option<seq<Byte>> {
    RemainderFrom(line, fields, 0)
  }

  lemma {:induction false} AfterFieldsBounds(line: seq<Byte>, fields: nat, i: nat)
    requires i <= |line|
    ensures AfterFields(line, fields, i).Some? ==> i <= AfterFields(line, fields, i).value <= |line|
    ensures AfterFields(line, fields, i).Some? && fields > 0 ==>
              && AfterFields(line, fields, i).value > 0
              && !AsciiWhitespace(line[AfterFields(line, fields, i).value - 1])
              && (AfterFields(line, fields, i).value < |line| ==>
                    AsciiWhitespace(line[AfterFields(line, fields, i).value]))
  {
    if fields > 0 {
      SkipBounds(line, i);
      var start := SkipSpace(line, i);
      if start < |line| {
        SkipBounds(line, start);
        AfterFieldsBounds(line, fields - 1, SkipField(line, start));
      }
    }
  }

  method ReadRemainder(line: seq<Byte>, fields: nat) returns (result: Option<seq<Byte>>)
    ensures result == RemainderAfterFields(line, fields)
  {
    var index := 0;
    var left := fields;
    while left > 0
      invariant index <= |line|
      invariant AfterFields(line, fields, 0) == AfterFields(line, left, index)
    {
      ghost var start := index;
      SkipBounds(line, start);
      while index < |line| && AsciiWhitespace(line[index])
        invariant start <= index <= |line| && SkipSpace(line, start) == SkipSpace(line, index)
      {
        index := index + 1;
      }
      if index == |line| {
        return None;
      }
      ghost var field := index;
      SkipBounds(line, field);
      while index < |line| && !AsciiWhitespace(line[index])
        invariant field <= index <= |line| && SkipField(line, field) == SkipField(line, index)
      {
        index := index + 1;
      }
      left := left - 1;
    }
    ghost var end := index;
    SkipBounds(line, end);
    while index < |line| && AsciiWhitespace(line[index])
      invariant end <= index <= |line| && SkipSpace(line, end) == SkipSpace(line, index)
    {
      index := index + 1;
    }
    result := if index < |line| then Some(line[index..]) else None;
  }

  // ---------------------------------------------------------------- round trip

  predicate Field(s: seq<Byte>) {
    s != [] && forall i :: 0 <= i < |s| ==> !AsciiWhitespace(s[i])
  }

  predicate Space(s: seq<Byte>) {
    s != [] && forall i :: 0 <= i < |s| ==> AsciiWhitespace(s[i])
  }

  predicate Columns(fields: seq<seq<Byte>>, gaps: seq<seq<Byte>>) {
    && |gaps| == |fields|
    && (forall i :: 0 <= i < |fields| ==> Field(fields[i]))
    && (forall i :: 0 <= i < |gaps| ==> Space(gaps[i]))
  }

  /** Fields, each followed by some white space, and then the name. */
  function Layout(fields: seq<seq<Byte>>, gaps: seq<seq<Byte>>, name: seq<Byte>): seq<Byte>
    requires |gaps| == |fields|
  {
    if fields == [] then name else fields[0] + gaps[0] + Layout(fields[1..], gaps[1..], name)
  }

  lemma {:induction false} SkipsSpaces(before: seq<Byte>, spaces: seq<Byte>, rest: seq<Byte>)
    requires forall i :: 0 <= i < |spaces| ==> AsciiWhitespace(spaces[i])
    requires rest != [] ==> !AsciiWhitespace(rest[0])
    ensures SkipSpace(before + spaces + rest, |before|) == |before| + |spaces|
  {
    var line := before + spaces + rest;
    assert forall i :: |before| <= i < |before| + |spaces| ==> line[i] == spaces[i - |before|];
    assert rest != [] ==> line[|before| + |spaces|] == rest[0];
    SkipBounds(line, |before|);
  }

  lemma {:induction false} SkipsFieldBytes(before: seq<Byte>, field: seq<Byte>, rest: seq<Byte>)
    requires Field(field) && (rest != [] ==> AsciiWhitespace(rest[0]))
    ensures SkipField(before + field + rest, |before|) == |before| + |field|
  {
    var line := before + field + rest;
    assert forall i :: |before| <= i < |before| + |field| ==> line[i] == field[i - |before|];
    assert rest != [] ==> line[|before| + |field|] == rest[0];
    SkipBounds(line, |before|);
  }

  predicate NameStart(name: seq<Byte>) {
    name != [] && !AsciiWhitespace(name[0])
  }

  lemma Regroup(a: seq<Byte>, b: seq<Byte>, c: seq<Byte>, d: seq<Byte>, e: seq<Byte>)
    ensures a + b + (c + d + e) == a + b + (c + (d + e)) == (a + b) + c + (d + e) == (a + b + c) + d + e
  {
  }

  lemma {:induction false} RemainderOfColumns(before: seq<Byte>, lead: seq<Byte>, fields: seq<seq<Byte>>,
                                              gaps: seq<seq<Byte>>, name: seq<Byte>)
    requires Columns(fields, gaps) && NameStart(name)
    requires forall i :: 0 <= i < |lead| ==> AsciiWhitespace(lead[i])
    ensures RemainderFrom(before + lead + Layout(fields, gaps, name), |fields|, |before|) == Some(name)
    decreases |fields|
  {
    var line := before + lead + Layout(fields, gaps, name);
    if fields == [] {
      SkipsSpaces(before, lead, name);
      assert line[|before| + |lead|..] == name;
    } else {
      var field, gap, rest := fields[0], gaps[0], Layout(fields[1..], gaps[1..], name);
      assert Field(field) && Space(gap);
      Regroup(before, lead, field, gap, rest);
      SkipsSpaces(before, lead, field + (gap + rest));
      SkipsFieldBytes(before + lead, field, gap + rest);
      RemainderOfColumns(before + lead + field, gap, fields[1..], gaps[1..], name);
    }
  }

  /**
   Round trip: from any line of fields without white space, each followed by some, and a name that
   starts with none, exactly the name comes back, inner spaces included, with any leading white space.
   */
  lemma NameComesBack(lead: seq<Byte>, fields: seq<seq<Byte>>, gaps: seq<seq<Byte>>, name: seq<Byte>)
    requires Columns(fields, gaps) && NameStart(name)
    requires forall i :: 0 <= i < |lead| ==> AsciiWhitespace(lead[i])
    ensures RemainderAfterFields(lead + Layout(fields, gaps, name), |fields|) == Some(name)
  {
    RemainderOfColumns([], lead, fields, gaps, name);
    assert [] + lead + Layout(fields, gaps, name) == lead + Layout(fields, gaps, name);
  }

  // ---------------------------------------------------------------- characters

  predicate Between(s: seq<Byte>, i: nat, low: Byte, high: Byte) {
    i < |s| && low <= s[i] <= high
  }

  predicate Tail(s: seq<Byte>, i: nat) {
    Between(s, i, 0x80, 0xBF)
  }

  /** The length of the character that the bytes start with (section 4 of RFC 3629), or zero if there is none. */
  function CharacterLength(s: seq<Byte>): (n: nat)
    ensures n <= |s|
  {
    if Between(s, 0, 0x00, 0x7F) then 1
    else if Between(s, 0, 0xC2, 0xDF) && Tail(s, 1) then 2
    else if && (|| (Between(s, 0, 0xE0, 0xE0) && Between(s, 1, 0xA0, 0xBF))
                || (Between(s, 0, 0xE1, 0xEC) && Tail(s, 1))
                || (Between(s, 0, 0xED, 0xED) && Between(s, 1, 0x80, 0x9F))
                || (Between(s, 0, 0xEE, 0xEF) && Tail(s, 1)))
            && Tail(s, 2) then 3
    else if && (|| (Between(s, 0, 0xF0, 0xF0) && Between(s, 1, 0x90, 0xBF))
                || (Between(s, 0, 0xF1, 0xF3) && Tail(s, 1))
                || (Between(s, 0, 0xF4, 0xF4) && Between(s, 1, 0x80, 0x8F)))
            && Tail(s, 2) && Tail(s, 3) then 4
    else 0
  }

  /** Well-formed UTF-8: a sequence of whole characters. */
  predicate WellFormed(s: seq<Byte>) {
    s == [] || (CharacterLength(s) > 0 && WellFormed(s[CharacterLength(s)..]))
  }

  /** A byte below 0x80 in the first character is all of it. */
  lemma LowByteIsWhole(s: seq<Byte>, i: nat)
    requires i < CharacterLength(s) && s[i] < 0x80
    ensures i == 0 && CharacterLength(s) == 1
  {
  }

  lemma CharacterOfFront(s: seq<Byte>, i: nat)
    requires CharacterLength(s) <= i <= |s| && CharacterLength(s) > 0
    ensures CharacterLength(s[..i]) == CharacterLength(s)
  {
  }

  /** Cutting well-formed text at its start or right after a byte below 0x80 cuts between two characters. */
  lemma {:induction false} CutIsWellFormed(s: seq<Byte>, i: nat)
    requires WellFormed(s) && i <= |s| && (i == 0 || s[i - 1] < 0x80)
    ensures WellFormed(s[..i]) && WellFormed(s[i..])
  {
    if i > 0 {
      hide CharacterLength;
      var n := CharacterLength(s);
      if i - 1 < n {
        LowByteIsWhole(s, i - 1);
      }
      assert n <= i;
      CutIsWellFormed(s[n..], i - n);
      CharacterOfFront(s, i);
      assert s[..i][n..] == s[n..][..i - n];
      assert s[n..][i - n..] == s[i..];
    }
  }

  predicate StartsName(line: seq<Byte>, i: int) {
    0 <= i < |line| && !AsciiWhitespace(line[i]) && (i == 0 || AsciiWhitespace(line[i - 1]))
  }

  /** The remainder of any line starts at its first byte or right after white space. */
  lemma CutsAfterSpace(line: seq<Byte>, fields: nat)
    requires RemainderAfterFields(line, fields).Some?
    ensures exists i :: StartsName(line, i) && RemainderAfterFields(line, fields).value == line[i..]
  {
    AfterFieldsBounds(line, fields, 0);
    var after := AfterFields(line, fields, 0).value;
    SkipBounds(line, after);
    assert StartsName(line, SkipSpace(line, after));
  }

  /**
   The cut is always between characters: of a line of well-formed text, both what is skipped and what
   remains are well-formed, whatever the number of fields.
   */
  lemma CutsBetweenCharacters(line: seq<Byte>, fields: nat)
    requires WellFormed(line) && RemainderAfterFields(line, fields).Some?
    ensures WellFormed(RemainderAfterFields(line, fields).value)
    ensures |RemainderAfterFields(line, fields).value| <= |line|
    ensures WellFormed(line[..|line| - |RemainderAfterFields(line, fields).value|])
  {
    hide WellFormed, RemainderAfterFields;
    CutsAfterSpace(line, fields);
    var i :| StartsName(line, i) && RemainderAfterFields(line, fields).value == line[i..];
    CutIsWellFormed(line, i);
  }

  // ---------------------------------------------------------------- the remainder of any line

  /** How many fields start between two positions of a line. */
  function FieldsFrom(line: seq<Byte>, first: int, last: int): nat
    requires 0 <= first <= last <= |line|
    decreases last - first
  {
    if first == last then 0 else (if StartsName(line, first) then 1 else 0) + FieldsFrom(line, first + 1, last)
  }

  lemma {:induction false} FieldsSplit(line: seq<Byte>, first: int, mid: int, last: int)
    requires 0 <= first <= mid <= last <= |line|
    ensures FieldsFrom(line, first, last) == FieldsFrom(line, first, mid) + FieldsFrom(line, mid, last)
    decreases mid - first
  {
    if first < mid {
      FieldsSplit(line, first + 1, mid, last);
    }
  }

  lemma {:induction false} NoFieldStarts(line: seq<Byte>, first: int, last: int)
    requires 0 <= first <= last <= |line| && forall j :: first <= j < last ==> !StartsName(line, j)
    ensures FieldsFrom(line, first, last) == 0
    decreases last - first
  {
    if first < last {
      NoFieldStarts(line, first + 1, last);
    }
  }

  /** No field is cut at this position: it is the start or the end of the line, or of a stretch of white space. */
  predicate BetweenFields(line: seq<Byte>, i: nat) {
    i == 0 || i >= |line| || AsciiWhitespace(line[i]) || AsciiWhitespace(line[i - 1])
  }

  /** Skipping white space comes to the start of the next field, or to the end if there is none. */
  lemma SpaceIsSkipped(line: seq<Byte>, i: nat)
    requires i <= |line| && BetweenFields(line, i)
    ensures i <= SkipSpace(line, i) <= |line| && FieldsFrom(line, i, SkipSpace(line, i)) == 0
    ensures SkipSpace(line, i) < |line| ==> StartsName(line, SkipSpace(line, i))
    ensures SkipSpace(line, i) == |line| <==> FieldsFrom(line, i, |line|) == 0
  {
    SkipBounds(line, i);
    var start := SkipSpace(line, i);
    NoFieldStarts(line, i, start);
    FieldsSplit(line, i, start, |line|);
  }

  /** Skipping a field passes exactly one. */
  lemma FieldIsSkipped(line: seq<Byte>, start: nat)
    requires StartsName(line, start)
    ensures start < SkipField(line, start) <= |line| && BetweenFields(line, SkipField(line, start))
    ensures FieldsFrom(line, start, SkipField(line, start)) == 1
  {
    SkipBounds(line, start);
    var end := SkipField(line, start);
    NoFieldStarts(line, start + 1, end);
  }

  lemma {:induction false} FieldsAreSkipped(line: seq<Byte>, fields: nat, i: nat)
    requires i <= |line| && BetweenFields(line, i)
    ensures AfterFields(line, fields, i).None? <==> FieldsFrom(line, i, |line|) < fields
    ensures AfterFields(line, fields, i).Some? ==>
              var end := AfterFields(line, fields, i).value;
              i <= end <= |line| && BetweenFields(line, end) && FieldsFrom(line, i, end) == fields
    decreases fields
  {
    if fields > 0 {
      SpaceIsSkipped(line, i);
      var start := SkipSpace(line, i);
      if start < |line| {
        FieldIsSkipped(line, start);
        var end := SkipField(line, start);
        FieldsAreSkipped(line, fields - 1, end);
        FieldsSplit(line, i, start, |line|);
        FieldsSplit(line, start, end, |line|);
        if AfterFields(line, fields, i).Some? {
          FieldsSplit(line, i, start, AfterFields(line, fields, i).value);
          FieldsSplit(line, start, end, AfterFields(line, fields, i).value);
        }
      }
    }
  }

  lemma {:induction false} SameStart(line: seq<Byte>, i: nat, j: nat)
    requires StartsName(line, i) && StartsName(line, j) && FieldsFrom(line, 0, i) == FieldsFrom(line, 0, j)
    ensures i == j
  {
    if i < j {
      FieldsSplit(line, 0, i, j);
    } else if j < i {
      FieldsSplit(line, 0, j, i);
    }
  }

  /**
   The remainder of every line, exactly: it starts at the field that has so many before it, and there is
   none exactly when the line has no field more.
   */
  lemma RemainderIff(line: seq<Byte>, fields: nat, i: nat)
    ensures RemainderAfterFields(line, fields) == None <==> FieldsFrom(line, 0, |line|) <= fields
    ensures StartsName(line, i) && FieldsFrom(line, 0, i) == fields ==>
              RemainderAfterFields(line, fields) == Some(line[i..])
  {
    FieldsAreSkipped(line, fields, 0);
    if AfterFields(line, fields, 0).Some? {
      var end := AfterFields(line, fields, 0).value;
      SpaceIsSkipped(line, end);
      var start := SkipSpace(line, end);
      FieldsSplit(line, 0, end, |line|);
      FieldsSplit(line, 0, end, start);
      if StartsName(line, i) && FieldsFrom(line, 0, i) == fields && start < |line| {
        SameStart(line, i, start);
      }
    }
    if StartsName(line, i) {
      FieldsSplit(line, 0, i, |line|);
    }
  }
}
