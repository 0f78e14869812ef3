/**
 Reading one /proc stat line. The command name sits in parentheses and may itself contain spaces,
 parentheses and line feeds, so the parser cuts at the last closing parenthesis.
 */
module StatParser {
  import opened Wrappers
  import opened Texts

  datatype Stat = Stat(comm: string, state: string, starttime: int)

  // ---- Searching and splitting -----------------------------------------------------------

  function Find(text: string, c: char): (k: int)
    ensures -1 <= k < |text|
    ensures k >= 0 ==> text[k] == c && forall i :: 0 <= i < k ==> text[i] != c
    ensures k == -1 ==> forall i :: 0 <= i < |text| ==> text[i] != c
  {
    FindFrom(text, c, 0)
  }

  function FindFrom(text: string, c: char, pos: nat): (k: int)
    requires pos <= |text|
    ensures k == -1 || pos <= k < |text|
    ensures k >= 0 ==> text[k] == c && forall i :: pos <= i < k ==> text[i] != c
    ensures k == -1 ==> forall i :: pos <= i < |text| ==> text[i] != c
    decreases |text| - pos
  {
    if pos == |text| then -1 else if text[pos] == c then pos else FindFrom(text, c, pos + 1)
  }

  function RFind(text: string, c: char): (k: int)
    ensures -1 <= k < |text|
    ensures k >= 0 ==> text[k] == c && forall i :: k < i < |text| ==> text[i] != c
    ensures k == -1 ==> forall i :: 0 <= i < |text| ==> text[i] != c
  {
    RFindBefore(text, c, |text|)
  }

  function RFindBefore(text: string, c: char, end: nat): (k: int)
    requires end <= |text|
    ensures -1 <= k < end
    ensures k >= 0 ==> text[k] == c && forall i :: k < i < end ==> text[i] != c
    ensures k == -1 ==> forall i :: 0 <= i < end ==> text[i] != c
  {
    if end == 0 then -1 else if text[end - 1] == c then end - 1 else RFindBefore(text, c, end - 1)
  }

  /** Which characters `split` takes for whitespace; a blank and a line feed are among them. */
  type Spaces = char -> bool

  predicate Blank(sp: Spaces) {
    sp(' ') && sp('\n')
  }

  function SkipSpace(sp: Spaces, text: string, pos: nat): (p: nat)
    requires pos <= |text|
    ensures pos <= p <= |text|
    ensures forall i :: pos <= i < p ==> sp(text[i])
    ensures p == |text| || !sp(text[p])
    decreases |text| - pos
  {
    if pos == |text| || !sp(text[pos]) then pos else SkipSpace(sp, text, pos + 1)
  }

  function WordEnd(sp: Spaces, text: string, pos: nat): (p: nat)
    requires pos <= |text|
    ensures pos <= p <= |text|
    ensures forall i :: pos <= i < p ==> !sp(text[i])
    ensures p == |text| || sp(text[p])
    decreases |text| - pos
  {
    if pos == |text| || sp(text[pos]) then pos else WordEnd(sp, text, pos + 1)
  }

  function SplitFrom(sp: Spaces, text: string, pos: nat): seq<string>
    requires pos <= |text|
    decreases |text| - pos
  {
    var b := SkipSpace(sp, text, pos);
    if b == |text| then []
    else [text[b..WordEnd(sp, text, b)]] + SplitFrom(sp, text, WordEnd(sp, text, b))
  }

  function Split(sp: Spaces, text: string): seq<string> {
    SplitFrom(sp, text, 0)
  }

  // ---- Decimal numbers -------------------------------------------------------------------

  predicate IsDigit(c: char) {
    '0' <= c <= '9'
  }

  function Digits(text: string): Option<nat> {
    if text == "" then None
    else if !IsDigit(text[|text| - 1]) then None
    else
      var d := (text[|text| - 1] - '0') as nat;
      if |text| == 1 then Some(d)
      else match Digits(text[..|text| - 1]) case None => None case Some(n) => Some(10 * n + d)
  }

  function ParseInt(text: string): Option<int> {
    var signed := text != "" && (text[0] == '-' || text[0] == '+');
    match Digits(if signed then text[1..] else text)
    case None => None
    case Some(n) => Some(if signed && text[0] == '-' then -(n as int) else n as int)
  }

  /** A number as the kernel prints it. */
  function Decimal(n: nat): (text: string)
    ensures text != "" && forall i :: 0 <= i < |text| ==> IsDigit(text[i])
  {
    var d := ['0' + (n % 10) as char];
    if n < 10 then d else Decimal(n / 10) + d
  }

  lemma {:induction false} DigitsOfDecimal(n: nat)
    ensures Digits(Decimal(n)) == Some(n)
  {
    if n >= 10 {
      DigitsOfDecimal(n / 10);
      var text := Decimal(n);
      assert text[..|text| - 1] == Decimal(n / 10);
    }
  }

  lemma {:induction false} DigitsIff(text: string)
    ensures Digits(text).Some? <==> text != "" && forall i :: 0 <= i < |text| ==> IsDigit(text[i])
  {
    if |text| > 1 {
      DigitsIff(text[..|text| - 1]);
    }
  }

  /** A printed number reads back, with a sign or without. */
  lemma DecimalRoundTrip(n: nat)
    ensures ParseInt(Decimal(n)) == Some(n)
    ensures ParseInt("-" + Decimal(n)) == Some(-(n as int)) && ParseInt("+" + Decimal(n)) == Some(n)
  {
    DigitsOfDecimal(n);
    assert IsDigit(Decimal(n)[0]);
    assert ("-" + Decimal(n))[1..] == Decimal(n) && ("+" + Decimal(n))[1..] == Decimal(n);
  }

  /** A number is one or more digits after at most one sign. */
  lemma ParseIntIff(text: string)
    ensures var digits := if text != "" && text[0] in {'-', '+'} then text[1..] else text;
            ParseInt(text).Some? <==> digits != "" && forall i :: 0 <= i < |digits| ==> IsDigit(digits[i])
  {
    DigitsIff(if text != "" && text[0] in {'-', '+'} then text[1..] else text);
  }

  // ---- The parser ------------------------------------------------------------------------

  /** Cuts a line at its first "(" and its last ")": the command name, and what is left of the line
      after the blank. */
  function Cut(raw: string): Option<(string, string)> {
    var close := RFind(raw, ')');
    var open_ := Find(raw, '(');
    if close == -1 || open_ == -1 || close < open_ then None
    else Some((raw[open_ + 1..close], From(raw, close + 2)))
  }

  function ReadStat(sp: Spaces, raw: string): Option<Stat> {
    match Cut(raw)
    case None => None
    case Some((comm, rest)) => StatFrom(comm, Split(sp, rest))
  }

  /** `raw[pos:]`, which is empty beyond the end. */
  function From(raw: string, pos: nat): string {
    if pos <= |raw| then raw[pos..] else ""
  }

  /** `rest` begins with the third field of the line; the start time is the twenty-second. */
  function StatFrom(comm: string, rest: seq<string>): Option<Stat> {
    if |rest| < 20 then None
    else match ParseInt(rest[19])
         case None => None
         case Some(starttime) => Some(Stat(comm, rest[0], starttime))
  }

  // ---- The printer -----------------------------------------------------------------------

  predicate IsField(sp: Spaces, field: string) {
    field != "" && forall i :: 0 <= i < |field| ==> !sp(field[i])
  }

  /** Each field after a blank, and a final line feed. */
  function Fields(fields: seq<string>): string {
    if fields == [] then "\n" else " " + fields[0] + Fields(fields[1..])
  }

  function PrintStat(tid: string, comm: string, fields: seq<string>): string {
    tid + " " + "(" + comm + ")" + Fields(fields)
  }

  lemma SplitStep(sp: Spaces, text: string, pos: nat, b: nat, e: nat)
    requires pos <= b < e <= |text|
    requires forall i :: pos <= i < b ==> sp(text[i])
    requires forall i :: b <= i < e ==> !sp(text[i])
    requires e == |text| || sp(text[e])
    ensures SplitFrom(sp, text, pos) == [text[b..e]] + SplitFrom(sp, text, e)
  {
    var b' := SkipSpace(sp, text, pos);
    assert b' == b by {
      assert !sp(text[b]);
    }
    var e' := WordEnd(sp, text, b);
    assert e' == e;
  }

  lemma SplitEnd(sp: Spaces, text: string, pos: nat)
    requires pos <= |text|
    requires forall i :: pos <= i < |text| ==> sp(text[i])
    ensures SplitFrom(sp, text, pos) == []
  {
    var b := SkipSpace(sp, text, pos);
  }

  lemma FieldsStart(sp: Spaces, fields: seq<string>)
    requires Blank(sp)
    ensures Fields(fields) != "" && sp(Fields(fields)[0])
  {
  }

  lemma FieldAt(sp: Spaces, text: string, pos: nat, f: string)
    requires IsField(sp, f) && At(text, pos, f)
    ensures forall i :: pos <= i < pos + |f| ==> !sp(text[i])
  {
    forall i | pos <= i < pos + |f|
      ensures !sp(text[i])
    {
      AtIndex(text, pos, f, i - pos);
    }
  }

  /** The fields of a line, from a position where only they remain, are what splitting gives. */
  lemma {:induction false} SplitFields(sp: Spaces, text: string, pos: nat, fields: seq<string>)
    requires Blank(sp)
    requires forall k :: 0 <= k < |fields| ==> IsField(sp, fields[k])
    requires At(text, pos, Fields(fields)) && pos + |Fields(fields)| == |text|
    ensures SplitFrom(sp, text, pos) == fields
    decreases |fields|
  {
    AtIndex(text, pos, Fields(fields), 0);
    if fields == [] {
      SplitEnd(sp, text, pos);
    } else {
      AtConcat(text, pos, " " + fields[0], Fields(fields[1..]));
      AtConcat(text, pos, " ", fields[0]);
      SplitField(sp, text, pos, pos + 1, fields);
    }
  }

  lemma SplitField(sp: Spaces, text: string, pos: nat, b: nat, fields: seq<string>)
    requires Blank(sp)
    requires fields != [] && forall k :: 0 <= k < |fields| ==> IsField(sp, fields[k])
    requires pos <= b <= |text| && forall i :: pos <= i < b ==> sp(text[i])
    requires At(text, b, fields[0]) && At(text, b + |fields[0]|, Fields(fields[1..]))
    requires b + |fields[0]| + |Fields(fields[1..])| == |text|
    ensures SplitFrom(sp, text, pos) == fields
    decreases |fields|, 0
  {
    var f, rest := fields[0], fields[1..];
    FieldsStart(sp, rest);
    AtIndex(text, b + |f|, Fields(rest), 0);
    SplitOne(sp, text, pos, b, f);
    forall k | 0 <= k < |rest|
      ensures IsField(sp, rest[k])
    {
      assert rest[k] == fields[k + 1];
    }
    SplitFields(sp, text, b + |f|, rest);
    assert fields == [f] + rest;
  }

  lemma SplitOne(sp: Spaces, text: string, pos: nat, b: nat, f: string)
    requires pos <= b && IsField(sp, f) && At(text, b, f) && b + |f| < |text| && sp(text[b + |f|])
    requires forall i :: pos <= i < b ==> sp(text[i])
    ensures SplitFrom(sp, text, pos) == [f] + SplitFrom(sp, text, b + |f|)
  {
    FieldAt(sp, text, b, f);
    AtSlice(text, b, f);
    SplitStep(sp, text, pos, b, b + |f|);
  }

  lemma SplitRest(sp: Spaces, fields: seq<string>)
    requires Blank(sp)
    requires fields != [] && forall k :: 0 <= k < |fields| ==> IsField(sp, fields[k])
    ensures Split(sp, Fields(fields)[1..]) == fields
  {
    var f, tail := fields[0], Fields(fields[1..]);
    DropBlank(f, tail);
    WholeAt(f + tail);
    AtConcat(f + tail, 0, f, tail);
    SplitField(sp, f + tail, 0, 0, fields);
  }

  lemma DropBlank(f: string, tail: string)
    ensures (" " + f + tail)[1..] == f + tail
  {
  }

  lemma {:induction false} FieldsWithout(fields: seq<string>, c: char)
    requires c != ' ' && c != '\n'
    ensures Without(Fields(fields), c) <==> forall k :: 0 <= k < |fields| ==> Without(fields[k], c)
  {
    if fields != [] {
      FieldsWithout(fields[1..], c);
      WithoutConcat(" ", fields[0], c);
      WithoutConcat(" " + fields[0], Fields(fields[1..]), c);
      assert forall k :: 0 < k < |fields| ==> fields[k] == fields[1..][k - 1];
    }
  }

  /** Where the parts of a line are. */
  lemma PartsOfLine(before: string, comm: string, tail: string)
    ensures var raw := before + "(" + comm + ")" + tail;
            var close := |before| + 1 + |comm|;
            && |raw| == close + 1 + |tail|
            && At(raw, 0, before) && At(raw, |before|, "(") && At(raw, |before| + 1, comm)
            && At(raw, close, ")") && At(raw, close + 1, tail)
  {
    var raw := before + "(" + comm + ")" + tail;
    WholeAt(raw);
    AtConcat(raw, 0, before + "(" + comm + ")", tail);
    AtConcat(raw, 0, before + "(" + comm, ")");
    AtConcat(raw, 0, before + "(", comm);
    AtConcat(raw, 0, before, "(");
  }

  lemma FindOpen(raw: string, before: string)
    requires At(raw, 0, before) && At(raw, |before|, "(") && Without(before, '(')
    ensures Find(raw, '(') == |before|
  {
    AtIndex(raw, |before|, "(", 0);
    var k := Find(raw, '(');
    if k < |before| {
      AtIndex(raw, 0, before, k);
    }
  }

  lemma FindClose(raw: string, close: nat, tail: string)
    requires At(raw, close, ")") && At(raw, close + 1, tail) && |raw| == close + 1 + |tail|
    ensures RFind(raw, ')') >= close
    ensures RFind(raw, ')') == close <==> Without(tail, ')')
  {
    AtIndex(raw, close, ")", 0);
    var r := RFind(raw, ')');
    if r > close {
      AtIndex(raw, close + 1, tail, r - close - 1);
    }
    forall i | 0 <= i < |tail|
      ensures raw[close + 1 + i] == tail[i]
    {
      AtIndex(raw, close + 1, tail, i);
    }
  }

  lemma TailSlice(raw: string, close: nat, tail: string)
    requires At(raw, close + 1, tail) && |raw| == close + 1 + |tail|
    ensures From(raw, close + 2) == From(tail, 1)
  {
    AtSlice(raw, close + 1, tail);
    if tail != "" {
      assert raw[close + 1..][1..] == raw[close + 2..];
    }
  }

  lemma PartsFound(raw: string, before: string, comm: string, close: nat, tail: string)
    requires Without(before, '(') && close == |before| + 1 + |comm| && |raw| == close + 1 + |tail|
    requires At(raw, 0, before) && At(raw, |before|, "(") && At(raw, |before| + 1, comm)
    requires At(raw, close, ")") && At(raw, close + 1, tail)
    ensures Find(raw, '(') == |before| && RFind(raw, ')') >= close
    ensures RFind(raw, ')') == close <==> Without(tail, ')')
    ensures raw[|before| + 1..close] == comm && From(raw, close + 2) == From(tail, 1)
  {
    FindOpen(raw, before);
    FindClose(raw, close, tail);
    AtSlice(raw, |before| + 1, comm);
    TailSlice(raw, close, tail);
  }

  /** Where a line is cut: at these parts, if nothing after them closes again, and later otherwise. */
  lemma CutParts(before: string, comm: string, tail: string)
    requires Without(before, '(')
    ensures var raw := before + "(" + comm + ")" + tail;
            && (Without(tail, ')') ==> Cut(raw) == Some((comm, From(tail, 1))))
            && (!Without(tail, ')') ==> Cut(raw).Some? && |Cut(raw).value.0| > |comm|)
  {
    PartsOfLine(before, comm, tail);
    PartsFound(before + "(" + comm + ")" + tail, before, comm, |before| + 1 + |comm|, tail);
  }

  // ---- Every line ----------------------------------------------------------------------------

  /** The line has an opening parenthesis with none before it and, later, a closing one with none
      after it; the command name is between them. */
  ghost predicate Parted(raw: string, before: string, comm: string, tail: string) {
    raw == before + "(" + comm + ")" + tail && Without(before, '(') && Without(tail, ')')
  }

  lemma Reassembled(raw: string, open_: nat, close: nat)
    requires open_ < close < |raw| && raw[open_] == '(' && raw[close] == ')'
    ensures raw == raw[..open_] + "(" + raw[open_ + 1..close] + ")" + raw[close + 1..]
  {
  }

  /** A cut line is parted where it was cut. */
  lemma CutIsParted(raw: string)
    requires Cut(raw).Some?
    ensures exists before, tail :: Parted(raw, before, Cut(raw).value.0, tail) && Cut(raw).value.1 == From(tail, 1)
  {
    var open_, close := Find(raw, '('), RFind(raw, ')');
    var before, tail := raw[..open_], raw[close + 1..];
    Reassembled(raw, open_, close);
    assert Parted(raw, before, Cut(raw).value.0, tail);
    if close + 2 <= |raw| {
      assert raw[close + 1..][1..] == raw[close + 2..];
    }
    assert Cut(raw).value.1 == From(tail, 1);
  }

  ghost predicate Reads(sp: Spaces, raw: string, before: string, tail: string, stat: Stat) {
    Parted(raw, before, stat.comm, tail) && StatFrom(stat.comm, Split(sp, From(tail, 1))) == Some(stat)
  }

  /** Of any line whatever, parentheses or not, the parser returns a result exactly when the line is
      parted by them and the fields after the name give that result. */
  lemma ReadIff(sp: Spaces, raw: string, stat: Stat)
    ensures ReadStat(sp, raw) == Some(stat) <==> exists before, tail :: Reads(sp, raw, before, tail, stat)
  {
    if ReadStat(sp, raw) == Some(stat) {
      CutIsParted(raw);
      var before, tail :| Parted(raw, before, Cut(raw).value.0, tail) && Cut(raw).value.1 == From(tail, 1);
      assert Reads(sp, raw, before, tail, stat);
    }
    if before, tail :| Reads(sp, raw, before, tail, stat) {
      CutParts(before, stat.comm, tail);
    }
  }

  // ---- Printed lines -------------------------------------------------------------------------

  predicate LongerName(got: Option<Stat>, comm: string) {
    got.Some? ==> |got.value.comm| > |comm|
  }

  /** What the parser makes of a printed line. */
  lemma ReadPrinted(sp: Spaces, tid: string, comm: string, fields: seq<string>)
    requires Blank(sp)
    requires Without(tid, '(')
    requires fields != [] && forall k :: 0 <= k < |fields| ==> IsField(sp, fields[k])
    ensures Without(Fields(fields), ')') ==> ReadStat(sp, PrintStat(tid, comm, fields)) == StatFrom(comm, fields)
    ensures !Without(Fields(fields), ')') ==> LongerName(ReadStat(sp, PrintStat(tid, comm, fields)), comm)
  {
    FieldsStart(sp, fields);
    SplitRest(sp, fields);
    WithoutConcat(tid, " ", '(');
    ReadLine(sp, tid + " ", comm, Fields(fields), fields);
  }

  lemma ReadLine(sp: Spaces, before: string, comm: string, tail: string, fields: seq<string>)
    requires Without(before, '(') && tail != "" && Split(sp, tail[1..]) == fields
    ensures Without(tail, ')') ==> ReadStat(sp, before + "(" + comm + ")" + tail) == StatFrom(comm, fields)
    ensures !Without(tail, ')') ==> LongerName(ReadStat(sp, before + "(" + comm + ")" + tail), comm)
  {
    CutParts(before, comm, tail);
  }

  /** Reading back a printed line gives the command name, the state and the start time, whatever
      the command name contains, exactly when no field holds a ")". */
  lemma {:induction false} StatRoundTrip(sp: Spaces, tid: string, comm: string, fields: seq<string>, starttime: int)
    requires Blank(sp)
    requires Without(tid, '(')
    requires |fields| >= 20 && forall k :: 0 <= k < |fields| ==> IsField(sp, fields[k])
    requires ParseInt(fields[19]) == Some(starttime)
    ensures ReadStat(sp, PrintStat(tid, comm, fields)) == Some(Stat(comm, fields[0], starttime)) <==>
            forall k :: 0 <= k < |fields| ==> Without(fields[k], ')')
  {
    ReadPrinted(sp, tid, comm, fields);
    FieldsWithout(fields, ')');
  }

  /** A printed line with fewer than 20 fields, or without a number in the twentieth, is refused. */
  lemma {:induction false} ShortOrOddLineIsRefused(sp: Spaces, tid: string, comm: string, fields: seq<string>)
    requires Blank(sp)
    requires Without(tid, '(') && fields != []
    requires forall k :: 0 <= k < |fields| ==> IsField(sp, fields[k]) && Without(fields[k], ')')
    ensures ReadStat(sp, PrintStat(tid, comm, fields)).None? <==> |fields| < 20 || ParseInt(fields[19]).None?
  {
    ReadPrinted(sp, tid, comm, fields);
    FieldsWithout(fields, ')');
  }
}
