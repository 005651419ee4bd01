/**
 * The pure part of `fetchAndProcess` (index.ts:54-65): splitting one line
 * at the commas that lie outside double quotes, normalising the header
 * names, and typing each field of a data line as null, date, number or
 * raw string in a record with one entry per header.
 */
module Csv {
  import opened Wrappers
  import opened Numerals
  import opened Calendar

  // ---------------------------------------------------------------------
  // Splitting a line: `line.split(/,(?=(?:[^"]*"[^"]*")*[^"]*$)/)`
  // ---------------------------------------------------------------------

  /** Number of `"` characters in `s`. */
  function Quotes(s: string): nat {
    if s == [] then 0 else (if s[0] == '"' then 1 else 0) + Quotes(s[1..])
  }

  /**
   * The lookahead of the split pattern: position `i` holds a comma and the
   * rest of the line after it holds an even number of `"`.
   */
  predicate IsSeparator(s: string, i: int) {
    0 <= i < |s| && s[i] == ',' && Quotes(s[i + 1..]) % 2 == 0
  }

  /** The first separator at or after `from`, if any. */
  function NextSeparator(s: string, from: nat): (r: Option<nat>)
    requires from <= |s|
    ensures r.Some? ==> from <= r.value < |s| && IsSeparator(s, r.value)
    ensures r.Some? ==> forall j :: from <= j < r.value ==> !IsSeparator(s, j)
    ensures r.None? ==> forall j :: from <= j < |s| ==> !IsSeparator(s, j)
    decreases |s| - from
  {
    if from == |s| then None
    else if IsSeparator(s, from) then Some(from)
    else NextSeparator(s, from + 1)
  }

  /** The fields of a line, in order (JS `split`: an empty line gives one empty field). */
  function SplitLine(s: string): (fields: seq<string>)
    ensures |fields| >= 1
    decreases |s|
  {
    match NextSeparator(s, 0)
    case None => [s]
    case Some(i) => [s[..i]] + SplitLine(s[i + 1..])
  }

  /** The fields joined back with commas. */
  function Join(fields: seq<string>): string
    requires |fields| >= 1
  {
    if |fields| == 1 then fields[0] else fields[0] + "," + Join(fields[1..])
  }

  function Shift(positions: set<int>, d: int): set<int> {
    set x | x in positions :: x + d
  }

  /** The positions, in Join(fields), of the commas placed between fields. */
  function Separators(fields: seq<string>): set<int>
    requires |fields| >= 1
  {
    if |fields| == 1 then {} else {|fields[0]|} + Shift(Separators(fields[1..]), |fields[0]| + 1)
  }

  /** Every separator position of a line. */
  function SeparatorsOf(s: string): set<int> {
    set i | 0 <= i < |s| && IsSeparator(s, i)
  }

  /** Whether a position is a separator depends only on the rest of the line. */
  lemma SeparatorInSuffix(s: string, k: nat, j: int)
    requires k <= |s| && 0 <= j < |s| - k
    ensures IsSeparator(s[k..], j) <==> IsSeparator(s, k + j)
  {
    assert s[k..][j + 1..] == s[k + j + 1..];
  }

  /** The separators of a line whose first separator is at `i`. */
  lemma SeparatorsAfterFirst(s: string, i: nat)
    requires IsSeparator(s, i)
    requires forall j :: 0 <= j < i ==> !IsSeparator(s, j)
    ensures SeparatorsOf(s) == {i} + Shift(SeparatorsOf(s[i + 1..]), i + 1)
  {
    var t := s[i + 1..];
    forall x | x in SeparatorsOf(s) && x != i ensures x in Shift(SeparatorsOf(t), i + 1) {
      SeparatorInSuffix(s, i + 1, x - (i + 1));
      assert x - (i + 1) in SeparatorsOf(t);
    }
    forall x | x in Shift(SeparatorsOf(t), i + 1) ensures x in SeparatorsOf(s) {
      var y :| y in SeparatorsOf(t) && x == y + i + 1;
      SeparatorInSuffix(s, i + 1, y);
    }
  }

  /**
   * The split is exactly a cut at the separators: joining the fields with
   * commas gives the line back, and the commas that were cut are precisely
   * the commas followed by an even number of quotes.
   */
  lemma {:induction false} SplitLineCharacterised(s: string)
    ensures Join(SplitLine(s)) == s
    ensures Separators(SplitLine(s)) == SeparatorsOf(s)
    decreases |s|
  {
    SplitLineJoin(s);
    SplitLineSeparators(s);
  }

  /** Joining the fields back with commas gives the line. */
  lemma {:induction false} SplitLineJoin(s: string)
    ensures Join(SplitLine(s)) == s
    decreases |s|
  {
    match NextSeparator(s, 0)
    case None =>
    case Some(i) =>
      var t := s[i + 1..];
      SplitLineJoin(t);
      assert SplitLine(s)[1..] == SplitLine(t);
      assert s == s[..i] + "," + t;
  }

  /** The commas between fields are exactly the separators of the line. */
  lemma {:induction false} SplitLineSeparators(s: string)
    ensures Separators(SplitLine(s)) == SeparatorsOf(s)
    decreases |s|
  {
    match NextSeparator(s, 0)
    case None =>
      assert SeparatorsOf(s) == {};
    case Some(i) =>
      var t := s[i + 1..];
      var ft := SplitLine(t);
      SplitLineSeparators(t);
      var fs := SplitLine(s);
      assert fs == [s[..i]] + ft;
      assert |fs[0]| == i && fs[1..] == ft;
      var rest := Separators(ft);
      assert Separators(fs) == {i} + Shift(rest, i + 1);
      assert rest == SeparatorsOf(t);
      SeparatorsAfterFirst(s, i);
  }

  // ---------------------------------------------------------------------
  // Header names: `header.toLowerCase().replace(/\s+/g, "_")`
  // ---------------------------------------------------------------------

  /** The characters JS's `\s` matches. */
  const Whitespace: set<char> := {
    ' ', '\t', '\n', '\r', '\U{000B}', '\U{000C}', '\U{00A0}', '\U{1680}',
    '\U{2000}', '\U{2001}', '\U{2002}', '\U{2003}', '\U{2004}', '\U{2005}',
    '\U{2006}', '\U{2007}', '\U{2008}', '\U{2009}', '\U{200A}',
    '\U{2028}', '\U{2029}', '\U{202F}', '\U{205F}', '\U{3000}', '\U{FEFF}'
  }

  predicate IsSpace(c: char) {
    c in Whitespace
  }

  predicate IsUpper(c: char) {
    'A' <= c <= 'Z'
  }

  function LowerChar(c: char): (r: char)
    ensures !IsUpper(r)
    ensures IsSpace(r) <==> IsSpace(c)
  {
    if IsUpper(c) then (c as int + 32) as char else c
  }

  function Lower(s: string): (r: string)
    ensures |r| == |s|
    ensures forall i :: 0 <= i < |s| ==> r[i] == LowerChar(s[i])
  {
    seq(|s|, i requires 0 <= i < |s| => LowerChar(s[i]))
  }

  /** `s` with its leading whitespace run removed. */
  function SkipSpaces(s: string): (r: string)
    ensures |r| <= |s|
    ensures s != [] && IsSpace(s[0]) ==> |r| < |s|
  {
    if s != [] && IsSpace(s[0]) then SkipSpaces(s[1..]) else s
  }

  lemma {:induction false} SkipSpacesSuffix(s: string)
    ensures SkipSpaces(s) == s[|s| - |SkipSpaces(s)|..]
    ensures SkipSpaces(s) == [] || !IsSpace(SkipSpaces(s)[0])
  {
    if s != [] && IsSpace(s[0]) {
      SkipSpacesSuffix(s[1..]);
    }
  }

  /** `replace(/\s+/g, "_")`: every maximal run of whitespace becomes one underscore. */
  function CollapseSpaces(s: string): string
    decreases |s|
  {
    if s == [] then []
    else if IsSpace(s[0]) then "_" + CollapseSpaces(SkipSpaces(s))
    else [s[0]] + CollapseSpaces(s[1..])
  }

  /** The collapse leaves no whitespace and brings in no upper-case letter. */
  lemma {:induction false} CollapseFacts(s: string)
    ensures forall i :: 0 <= i < |CollapseSpaces(s)| ==> !IsSpace(CollapseSpaces(s)[i])
    ensures (forall i :: 0 <= i < |s| ==> !IsUpper(s[i])) ==>
      forall i :: 0 <= i < |CollapseSpaces(s)| ==> !IsUpper(CollapseSpaces(s)[i])
    decreases |s|
  {
    if s != [] {
      if IsSpace(s[0]) {
        var t := SkipSpaces(s);
        SkipSpacesSuffix(s);
        assert forall i :: 0 <= i < |t| ==> t[i] == s[|s| - |t| + i];
        CollapseFacts(t);
      } else {
        CollapseFacts(s[1..]);
      }
    }
  }

  /** The record key of a header cell: lower case, with no whitespace left. */
  function NormalizeHeader(header: string): (r: string)
    ensures forall i :: 0 <= i < |r| ==> !IsSpace(r[i]) && !IsUpper(r[i])
  {
    CollapseFacts(Lower(header));
    CollapseSpaces(Lower(header))
  }

  /** Text without whitespace is left alone by the collapse. */
  lemma {:induction false} CollapseNoSpace(s: string)
    requires forall i :: 0 <= i < |s| ==> !IsSpace(s[i])
    ensures CollapseSpaces(s) == s
  {
    if s != [] {
      CollapseNoSpace(s[1..]);
    }
  }

  /** A header without whitespace is only lower-cased. */
  lemma NormalizeWithoutSpaces(header: string)
    requires forall i :: 0 <= i < |header| ==> !IsSpace(header[i])
    ensures NormalizeHeader(header) == Lower(header)
  {
    CollapseNoSpace(Lower(header));
  }

  /** Normalising a normalised header changes nothing. */
  lemma NormalizeIdempotent(header: string)
    ensures NormalizeHeader(NormalizeHeader(header)) == NormalizeHeader(header)
  {
    var n := NormalizeHeader(header);
    assert Lower(n) == n;
    CollapseNoSpace(n);
  }

  /**
   * The collapse works run by run: a whitespace run `w` between a part that
   * does not end in whitespace and a part that does not start with it turns
   * into exactly one underscore.
   */
  lemma {:induction false} CollapseRun(a: string, w: string, b: string)
    requires a == [] || !IsSpace(a[|a| - 1])
    requires |w| >= 1 && forall i :: 0 <= i < |w| ==> IsSpace(w[i])
    requires b == [] || !IsSpace(b[0])
    ensures CollapseSpaces(a + w + b) == CollapseSpaces(a) + "_" + CollapseSpaces(b)
    decreases |a|, 1
  {
    if a == [] {
      assert a + w + b == w + b;
      CollapseLeadingRun(w, b);
    } else if IsSpace(a[0]) {
      CollapseRunAfterSpace(a, w, b);
    } else {
      CollapseRunAfterOther(a, w, b);
    }
  }

  lemma {:induction false} CollapseRunAfterSpace(a: string, w: string, b: string)
    requires a != [] && IsSpace(a[0]) && !IsSpace(a[|a| - 1])
    requires |w| >= 1 && forall i :: 0 <= i < |w| ==> IsSpace(w[i])
    requires b == [] || !IsSpace(b[0])
    ensures CollapseSpaces(a + w + b) == CollapseSpaces(a) + "_" + CollapseSpaces(b)
    decreases |a|, 0
  {
    var a' := SkipSpaces(a);
    var x := a + w + b;
    SkipWithin(a, w + b);
    assert x == a + (w + b) && a' + (w + b) == a' + w + b;
    assert x[0] == a[0];
    assert SkipSpaces(x) == a' + w + b;
    CollapseRun(a', w, b);
    assert CollapseSpaces(x) == "_" + CollapseSpaces(a' + w + b);
  }

  lemma {:induction false} CollapseRunAfterOther(a: string, w: string, b: string)
    requires a != [] && !IsSpace(a[0]) && !IsSpace(a[|a| - 1])
    requires |w| >= 1 && forall i :: 0 <= i < |w| ==> IsSpace(w[i])
    requires b == [] || !IsSpace(b[0])
    ensures CollapseSpaces(a + w + b) == CollapseSpaces(a) + "_" + CollapseSpaces(b)
    decreases |a|, 0
  {
    assert (a + w + b)[0] == a[0] && (a + w + b)[1..] == a[1..] + w + b;
    CollapseRun(a[1..], w, b);
  }

  lemma CollapseLeadingRun(w: string, b: string)
    requires |w| >= 1 && forall i :: 0 <= i < |w| ==> IsSpace(w[i])
    requires b == [] || !IsSpace(b[0])
    ensures CollapseSpaces(w + b) == "_" + CollapseSpaces(b)
  {
    assert (w + b)[0] == w[0];
    SkipRun(w, b);
  }

  /** Skipping a whitespace run that ends inside `a` does not reach what follows `a`. */
  lemma {:induction false} SkipWithin(a: string, rest: string)
    requires a != [] && !IsSpace(a[|a| - 1])
    ensures SkipSpaces(a + rest) == SkipSpaces(a) + rest
    ensures SkipSpaces(a) != [] && SkipSpaces(a)[|SkipSpaces(a)| - 1] == a[|a| - 1]
    decreases |a|
  {
    if IsSpace(a[0]) {
      assert (a + rest)[1..] == a[1..] + rest;
      SkipWithin(a[1..], rest);
    }
  }

  lemma {:induction false} SkipRun(w: string, b: string)
    requires forall i :: 0 <= i < |w| ==> IsSpace(w[i])
    requires b == [] || !IsSpace(b[0])
    ensures SkipSpaces(w + b) == b
    decreases |w|
  {
    if w != [] {
      assert (w + b)[1..] == w[1..] + b;
      SkipRun(w[1..], b);
    }
  }

  // ---------------------------------------------------------------------
  // Typing one field (index.ts:59-63)
  // ---------------------------------------------------------------------

  /** A typed record entry; `Undefined` is a header with no value on the line. */
  datatype Field = Null | DateValue(date: CsvDate) | Number(number: real) | Text(raw: string) | Undefined

  /** `/^\d{4}-\d{2}-\d{2}$/` */
  predicate IsDateText(s: string) {
    && |s| == 10
    && AllDigits(s[..4]) && s[4] == '-'
    && AllDigits(s[5..7]) && s[7] == '-'
    && AllDigits(s[8..])
  }

  lemma {:induction false} ValueBound(s: string)
    requires AllDigits(s)
    ensures Value(s) < Pow10(|s|)
  {
    if s != [] {
      ValueBound(s[..|s| - 1]);
    }
  }

  /** The year, month and day digits of a date text, as written. */
  function ParseDate(s: string): CsvDate
    requires IsDateText(s)
  {
    ValueBound(s[..4]);
    ValueBound(s[5..7]);
    ValueBound(s[8..]);
    Date(Value(s[..4]), Value(s[5..7]), Value(s[8..]))
  }

  /** `YYYY-MM-DD` for a date. */
  function DateText(d: CsvDate): string {
    Pad(d.year, 4) + "-" + Pad(d.month, 2) + "-" + Pad(d.day, 2)
  }

  /** Reading a date text and writing it back gives the same text. */
  lemma DateTextOfParse(s: string)
    requires IsDateText(s)
    ensures DateText(ParseDate(s)) == s
  {
    PadOfValue(s[..4]);
    PadOfValue(s[5..7]);
    PadOfValue(s[8..]);
    assert s == s[..4] + "-" + s[5..7] + "-" + s[8..];
  }

  /** Writing a date and reading it back gives the same date. */
  lemma ParseOfDateText(d: CsvDate)
    ensures IsDateText(DateText(d)) && ParseDate(DateText(d)) == d
  {
    var t := DateText(d);
    assert t[..4] == Pad(d.year, 4);
    assert t[5..7] == Pad(d.month, 2);
    assert t[8..] == Pad(d.day, 2);
    ValueOfPad(d.year, 4);
    ValueOfPad(d.month, 2);
    ValueOfPad(d.day, 2);
  }

  /** The position of the first '.', if any. */
  function DotIndex(s: string): (r: Option<nat>)
    ensures r.Some? ==> r.value < |s| && s[r.value] == '.' && forall j :: 0 <= j < r.value ==> s[j] != '.'
    ensures r.None? ==> forall j :: 0 <= j < |s| ==> s[j] != '.'
  {
    if s == [] then None
    else if s[0] == '.' then Some(0)
    else match DotIndex(s[1..])
      case None => None
      case Some(k) => Some(k + 1)
  }

  /** `\d+(?:\.\d+)?` */
  predicate IsUnsignedNumberText(s: string) {
    match DotIndex(s)
    case None => |s| >= 1 && AllDigits(s)
    case Some(k) => 1 <= k < |s| - 1 && AllDigits(s[..k]) && AllDigits(s[k + 1..])
  }

  /** `/^-?\d+(?:\.\d+)?$/` */
  predicate IsNumberText(s: string) {
    if |s| >= 1 && s[0] == '-' then IsUnsignedNumberText(s[1..]) else IsUnsignedNumberText(s)
  }

  function UnsignedValue(s: string): real
    requires IsUnsignedNumberText(s)
  {
    match DotIndex(s)
    case None => Value(s) as real
    case Some(k) => Value(s[..k]) as real + Value(s[k + 1..]) as real / Pow10(|s| - k - 1) as real
  }

  /** The exact value `parseFloat` approximates. */
  function NumberValue(s: string): real
    requires IsNumberText(s)
  {
    if |s| >= 1 && s[0] == '-' then -UnsignedValue(s[1..]) else UnsignedValue(s)
  }

  /** The template text of an integer reads back as that integer. */
  lemma NumberOfIntText(i: int)
    ensures IsNumberText(IntText(i)) && NumberValue(IntText(i)) == i as real
  {
    var t := IntText(i);
    if i < 0 {
      assert t[1..] == Decimal(-i);
      ValueOfDecimal(-i);
    } else {
      ValueOfDecimal(i);
    }
  }

  /** A date text is never a number text, so the order of the two tests does not matter. */
  lemma DateTextIsNotNumberText(s: string)
    requires IsDateText(s)
    ensures !IsNumberText(s)
  {
    assert IsDigit(s[0]);
    assert !IsDigit(s[4]) && s[4] != '.';
    match DotIndex(s)
    case None =>
    case Some(k) =>
      assert k != 4;
      if k > 4 {
        assert !IsDigit(s[..k][4]);
      } else {
        assert !IsDigit(s[k + 1..][4 - k - 1]);
      }
  }

  /**
   * The typing of one value (`values[index]`, undefined past the end of the
   * line): the empty text is null, a date text a date, a number text a
   * number, and anything else stays the raw text, quotes included.
   */
  function TypeField(v: Option<string>): (r: Field)
    ensures r.Undefined? <==> v.None?
    ensures r.Null? <==> v == Some("")
    ensures r.DateValue? <==> v.Some? && IsDateText(v.value)
    ensures r.Number? <==> v.Some? && v.value != "" && IsNumberText(v.value)
    ensures r.Text? <==> v.Some? && v.value != "" && !IsDateText(v.value) && !IsNumberText(v.value)
    ensures r.Text? ==> r.raw == v.value
  {
    match v
    case None => Undefined
    case Some(s) =>
      if s == "" then Null
      else if IsDateText(s) then
        DateTextIsNotNumberText(s);
        DateValue(ParseDate(s))
      else if IsNumberText(s) then Number(NumberValue(s))
      else Text(s)
  }

  // ---------------------------------------------------------------------
  // The record of one data line: `headers.reduce(..., {})`
  // ---------------------------------------------------------------------

  function ValueAt(values: seq<string>, i: nat): Option<string> {
    if i < |values| then Some(values[i]) else None
  }

  /** The accumulator after the first `n` headers. */
  function RecordPrefix(headers: seq<string>, values: seq<string>, n: nat): map<string, Field>
    requires n <= |headers|
  {
    if n == 0 then map[] else RecordPrefix(headers, values, n - 1)[headers[n - 1] := TypeField(ValueAt(values, n - 1))]
  }

  /** The record built from the headers and the fields of one data line. */
  function TypeRecord(headers: seq<string>, values: seq<string>): map<string, Field> {
    RecordPrefix(headers, values, |headers|)
  }

  /** The record of a data line, given the normalised headers. */
  function ParseLine(headers: seq<string>, line: string): map<string, Field> {
    TypeRecord(headers, SplitLine(line))
  }

  /** The normalised headers of the first line. */
  function ParseHeaders(line: string): (hs: seq<string>)
    ensures |hs| == |SplitLine(line)|
  {
    var cells := SplitLine(line);
    seq(|cells|, i requires 0 <= i < |cells| => NormalizeHeader(cells[i]))
  }

  /** The record has exactly one entry per header. */
  lemma {:induction false} RecordPrefixKeys(headers: seq<string>, values: seq<string>, n: nat)
    requires n <= |headers|
    ensures RecordPrefix(headers, values, n).Keys == set i | 0 <= i < n :: headers[i]
  {
    if n > 0 {
      RecordPrefixKeys(headers, values, n - 1);
      var before := set i | 0 <= i < n - 1 :: headers[i];
      assert (set i | 0 <= i < n :: headers[i]) == before + {headers[n - 1]};
    }
  }

  /**
   * A header's entry is the typing of the value at its last occurrence (a
   * repeated header is overwritten by the later one).
   */
  lemma {:induction false} RecordPrefixEntries(headers: seq<string>, values: seq<string>, n: nat)
    requires n <= |headers|
    ensures forall i :: 0 <= i < n && (forall j :: i < j < n ==> headers[j] != headers[i]) ==>
      headers[i] in RecordPrefix(headers, values, n) && RecordPrefix(headers, values, n)[headers[i]] == TypeField(ValueAt(values, i))
  {
    if n > 0 {
      RecordPrefixEntries(headers, values, n - 1);
      var prev := RecordPrefix(headers, values, n - 1);
      var m := RecordPrefix(headers, values, n);
      assert m == prev[headers[n - 1] := TypeField(ValueAt(values, n - 1))];
      forall i | 0 <= i < n && (forall j :: i < j < n ==> headers[j] != headers[i])
        ensures headers[i] in m && m[headers[i]] == TypeField(ValueAt(values, i))
      {
        if i < n - 1 {
          assert headers[n - 1] != headers[i];
          assert forall j :: i < j < n - 1 ==> headers[j] != headers[i];
        }
      }
    }
  }

  lemma TypeRecordEntries(headers: seq<string>, values: seq<string>)
    ensures TypeRecord(headers, values).Keys == set h | h in headers
    ensures forall i :: 0 <= i < |headers| && (forall j :: i < j < |headers| ==> headers[j] != headers[i]) ==>
      TypeRecord(headers, values)[headers[i]] == TypeField(ValueAt(values, i))
  {
    RecordPrefixKeys(headers, values, |headers|);
    RecordPrefixEntries(headers, values, |headers|);
    var a := set i | 0 <= i < |headers| :: headers[i];
    var b := set h | h in headers;
    forall h | h in b ensures h in a {
      var i :| 0 <= i < |headers| && headers[i] == h;
    }
  }
}
