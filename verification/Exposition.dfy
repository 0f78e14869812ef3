/**
 Label escaping, the sample printer, and the sample and label parsers, character by character.
 */
module Exposition {
  import opened Wrappers
  import opened StatParser
  import opened Texts

  // ---- Escaping ----------------------------------------------------------------------------

  /** `s.replace(c, r)` for a single character c. */
  function ReplaceChar(s: string, c: char, r: string): string {
    if s == "" then "" else (if s[0] == c then r else [s[0]]) + ReplaceChar(s[1..], c, r)
  }

  /** The three replacements one after the other: backslash, quote, line feed. */
  function Esc(v: string): string {
    ReplaceChar(ReplaceChar(ReplaceChar(v, '\\', "\\\\"), '"', "\\\""), '\n', "\\n")
  }

  function EscChar(c: char): (r: string)
    ensures r != ""
  {
    if c == '\\' then "\\\\" else if c == '"' then "\\\"" else if c == '\n' then "\\n" else [c]
  }

  /** One escape per character. */
  function EscEach(v: string): string {
    if v == "" then "" else EscChar(v[0]) + EscEach(v[1..])
  }

  lemma ReplaceHead(x: char, s: string, c: char, r: string)
    ensures ReplaceChar([x] + s, c, r) == (if x == c then r else [x]) + ReplaceChar(s, c, r)
  {
    assert ([x] + s)[1..] == s;
  }

  lemma {:induction false} ReplaceConcat(a: string, b: string, c: char, r: string)
    ensures ReplaceChar(a + b, c, r) == ReplaceChar(a, c, r) + ReplaceChar(b, c, r)
  {
    if a == "" {
      assert a + b == b;
    } else {
      var a' := a[1..];
      ReplaceConcat(a', b, c, r);
      assert a == [a[0]] + a';
      Assoc([a[0]], a', b);
      ReplaceHead(a[0], a' + b, c, r);
      Assoc(if a[0] == c then r else [a[0]], ReplaceChar(a', c, r), ReplaceChar(b, c, r));
    }
  }

  lemma ReplaceOne(x: char, c: char, r: string)
    ensures ReplaceChar([x], c, r) == if x == c then r else [x]
  {
    assert [x][1..] == "";
  }

  lemma ReplaceTwo(x: char, y: char, c: char, r: string)
    ensures ReplaceChar([x, y], c, r) == (if x == c then r else [x]) + (if y == c then r else [y])
  {
    assert [x, y] == [x] + [y];
    ReplaceConcat([x], [y], c, r);
    ReplaceOne(x, c, r);
    ReplaceOne(y, c, r);
  }

  lemma EscOne(x: char)
    ensures Esc([x]) == EscChar(x)
  {
    ReplaceOne(x, '\\', "\\\\");
    ReplaceOne(x, '"', "\\\"");
    ReplaceOne(x, '\n', "\\n");
    ReplaceTwo('\\', '\\', '"', "\\\"");
    ReplaceTwo('\\', '\\', '\n', "\\n");
    ReplaceTwo('\\', '"', '\n', "\\n");
  }

  lemma EscConcat(a: string, b: string)
    ensures Esc(a + b) == Esc(a) + Esc(b)
  {
    var a1, b1 := ReplaceChar(a, '\\', "\\\\"), ReplaceChar(b, '\\', "\\\\");
    ReplaceConcat(a, b, '\\', "\\\\");
    ReplaceConcat(a1, b1, '"', "\\\"");
    ReplaceConcat(ReplaceChar(a1, '"', "\\\""), ReplaceChar(b1, '"', "\\\""), '\n', "\\n");
  }

  /** The order of the replacements is right: together they escape each character once. */
  lemma {:induction false} EscIsCharwise(v: string)
    ensures Esc(v) == EscEach(v)
  {
    if v != "" {
      assert v == [v[0]] + v[1..];
      EscConcat([v[0]], v[1..]);
      EscOne(v[0]);
      EscIsCharwise(v[1..]);
    }
  }

  /** Label unescaping as the text exposition format 0.0.4 defines it. */
  function Unescape(e: string): Option<string> {
    if e == "" then Some("")
    else if e[0] == '\\' then
      if |e| < 2 || e[1] !in {'\\', '"', 'n'} then None
      else match Unescape(e[2..])
           case None => None
           case Some(rest) => Some([if e[1] == 'n' then '\n' else e[1]] + rest)
    else match Unescape(e[1..]) case None => None case Some(rest) => Some([e[0]] + rest)
  }

  /** Every label value survives the three replacements and standard unescaping. */
  lemma UnescapeInvertsEsc(v: string)
    ensures Unescape(Esc(v)) == Some(v)
  {
    EscIsCharwise(v);
    UnescapeInvertsEach(v);
  }

  lemma {:induction false} UnescapeInvertsEach(v: string)
    ensures Unescape(EscEach(v)) == Some(v)
  {
    if v != "" {
      UnescapeInvertsEach(v[1..]);
      UnescapeStep(v[0], EscEach(v[1..]));
      assert v == [v[0]] + v[1..];
    }
  }

  lemma UnescapeStep(c: char, e: string)
    ensures Unescape(EscChar(c) + e) == match Unescape(e) case None => None case Some(rest) => Some([c] + rest)
  {
    assert (EscChar(c) + e)[|EscChar(c)|..] == e;
  }

  /** No line feed, no quote without a backslash before it, no backslash left dangling. */
  predicate Clean(e: string) {
    || e == ""
    || (e[0] == '\\' && |e| >= 2 && e[1] != '\n' && Clean(e[2..]))
    || (e[0] !in {'\\', '"', '\n'} && Clean(e[1..]))
  }

  /** An escaped value can stand between quotes on one line. */
  lemma EscIsClean(v: string)
    ensures Clean(Esc(v))
  {
    EscIsCharwise(v);
    EachIsClean(v);
  }

  lemma {:induction false} EachIsClean(v: string)
    ensures Clean(EscEach(v))
  {
    if v != "" {
      EachIsClean(v[1..]);
      assert EscEach(v)[|EscChar(v[0])|..] == EscEach(v[1..]);
    }
  }

  lemma {:induction false} CleanHasNoNewline(e: string, i: nat)
    requires Clean(e) && i < |e|
    ensures e[i] != '\n'
  {
    var n := if e[0] == '\\' then 2 else 1;
    if i >= n {
      CleanHasNoNewline(e[n..], i - n);
    }
  }

  // ---- The label expression ----------------------------------------------------------------

  predicate KeyStart(c: char) {
    'a' <= c <= 'z' || 'A' <= c <= 'Z' || c == '_'
  }

  predicate KeyPart(c: char) {
    KeyStart(c) || '0' <= c <= '9'
  }

  function KeyEnd(text: string, pos: nat): (end: nat)
    requires pos <= |text|
    ensures pos <= end <= |text|
    ensures forall i :: pos <= i < end ==> KeyPart(text[i])
    ensures end == |text| || !KeyPart(text[end])
    decreases |text| - pos
  {
    if pos == |text| || !KeyPart(text[pos]) then pos else KeyEnd(text, pos + 1)
  }

  /** Where the closing quote of a value is: the first quote no backslash takes away. */
  function ValueEnd(text: string, pos: nat): (end: Option<nat>)
    ensures end.Some? ==> pos <= end.value < |text| && text[end.value] == '"'
    decreases |text| - pos
  {
    if pos >= |text| then None
    else if text[pos] == '"' then Some(pos)
    else if text[pos] == '\\' then
      if pos + 1 < |text| && text[pos + 1] != '\n' then ValueEnd(text, pos + 2) else None
    else ValueEnd(text, pos + 1)
  }

  datatype Pair = Pair(key: string, value: string)

  datatype Match = Match(pair: Pair, end: nat)

  function LabelAt(text: string, pos: nat): (m: Option<Match>)
    requires pos < |text|
    ensures m.Some? ==> pos < m.value.end <= |text|
  {
    if !KeyStart(text[pos]) then None
    else
      var k := KeyEnd(text, pos);
      if k + 1 >= |text| || text[k] != '=' || text[k + 1] != '"' then None
      else match ValueEnd(text, k + 2)
           case None => None
           case Some(v) => Some(Match(Pair(text[pos..k], text[k + 2..v]), v + 1))
  }

  /** All matches from left to right, without overlap. */
  function FindLabels(text: string, pos: nat): seq<Pair>
    decreases |text| - pos
  {
    if pos >= |text| then []
    else match LabelAt(text, pos)
         case None => FindLabels(text, pos + 1)
         case Some(m) => [m.pair] + FindLabels(text, m.end)
  }

  /** `v.replace('\\"', '"')`. */
  function UnescapeQuotes(v: string): string {
    if v == "" then ""
    else if |v| >= 2 && v[0] == '\\' && v[1] == '"' then "\"" + UnescapeQuotes(v[2..])
    else [v[0]] + UnescapeQuotes(v[1..])
  }

  function ToMap(labels: seq<Pair>): map<string, string> {
    if labels == [] then map[]
    else ToMap(labels[..|labels| - 1])[labels[|labels| - 1].key := UnescapeQuotes(labels[|labels| - 1].value)]
  }

  function ParseLabels(raw: string): map<string, string> {
    ToMap(FindLabels(raw, 0))
  }

  // ---- Printing ----------------------------------------------------------------------------

  predicate IsKey(k: string) {
    k != "" && KeyStart(k[0]) && forall i :: 0 <= i < |k| ==> KeyPart(k[i])
  }

  /** Pairs whose values are already escaped. */
  function Join(pairs: seq<Pair>): string
    decreases |pairs|, 0
  {
    if pairs == [] then ""
    else pairs[0].key + "=" + ("\"" + pairs[0].value + "\"") + Rest(pairs[1..])
  }

  function Rest(pairs: seq<Pair>): string
    decreases |pairs|, 1
  {
    if pairs == [] then "" else "," + Join(pairs)
  }

  function Escaped(labels: seq<Pair>): (r: seq<Pair>)
    ensures |r| == |labels|
    ensures forall i :: 0 <= i < |labels| ==> r[i] == Pair(labels[i].key, Esc(labels[i].value))
  {
    seq(|labels|, i requires 0 <= i < |labels| => Pair(labels[i].key, Esc(labels[i].value)))
  }

  function Render(labels: seq<Pair>): string {
    Join(Escaped(labels))
  }

  ghost predicate KeysOk(pairs: seq<Pair>) {
    forall i :: 0 <= i < |pairs| ==> IsKey(pairs[i].key)
  }

  ghost predicate DistinctKeys(pairs: seq<Pair>) {
    forall i, j :: 0 <= i < j < |pairs| ==> pairs[i].key != pairs[j].key
  }

  ghost predicate AllClean(pairs: seq<Pair>) {
    forall i :: 0 <= i < |pairs| ==> Clean(pairs[i].value)
  }

  lemma EscapedIsClean(labels: seq<Pair>)
    ensures AllClean(Escaped(labels))
    ensures KeysOk(labels) ==> KeysOk(Escaped(labels))
  {
    forall i | 0 <= i < |labels|
      ensures Clean(Escaped(labels)[i].value)
    {
      EscIsClean(labels[i].value);
    }
  }

  // ---- Reading back what was printed -------------------------------------------------------

  lemma {:induction false} ValueEndOfClean(text: string, pos: nat, e: string)
    requires Clean(e) && At(text, pos, e) && pos + |e| < |text| && text[pos + |e|] == '"'
    ensures ValueEnd(text, pos) == Some(pos + |e|)
    decreases |e|
  {
    if e != "" {
      var n := if e[0] == '\\' then 2 else 1;
      AtIndex(text, pos, e, 0);
      if n == 2 {
        AtIndex(text, pos, e, 1);
      }
      assert e[..n] + e[n..] == e;
      AtConcat(text, pos, e[..n], e[n..]);
      ValueEndOfClean(text, pos + n, e[n..]);
    }
  }

  lemma KeyEndOfKey(text: string, pos: nat, k: string)
    requires IsKey(k) && At(text, pos, k) && pos + |k| < |text| && !KeyPart(text[pos + |k|])
    ensures KeyEnd(text, pos) == pos + |k| && KeyStart(text[pos])
  {
    forall i | pos <= i < pos + |k|
      ensures KeyPart(text[i])
    {
      AtIndex(text, pos, k, i - pos);
    }
    AtIndex(text, pos, k, 0);
    var end := KeyEnd(text, pos);
  }

  /** A printed label at a position is what the label expression matches there. */
  lemma LabelAtPrinted(text: string, pos: nat, k: string, e: string)
    requires IsKey(k) && Clean(e) && At(text, pos, k + "=" + ("\"" + e + "\""))
    ensures pos < |text| && LabelAt(text, pos) == Some(Match(Pair(k, e), pos + |k| + |e| + 3))
  {
    AtConcat(text, pos, k + "=", "\"" + e + "\"");
    AtConcat(text, pos, k, "=");
    var p := pos + |k|;
    AtConcat(text, p + 1, "\"" + e, "\"");
    AtConcat(text, p + 1, "\"", e);
    LabelAtParts(text, pos, k, e);
  }

  lemma LabelAtParts(text: string, pos: nat, k: string, e: string)
    requires IsKey(k) && Clean(e)
    requires At(text, pos, k) && At(text, pos + |k|, "=") && At(text, pos + |k| + 1, "\"")
    requires At(text, pos + |k| + 2, e) && At(text, pos + |k| + 2 + |e|, "\"")
    ensures LabelAt(text, pos) == Some(Match(Pair(k, e), pos + |k| + |e| + 3))
  {
    var p := pos + |k|;
    AtIndex(text, p, "=", 0);
    AtIndex(text, p + 1, "\"", 0);
    AtIndex(text, p + 2 + |e|, "\"", 0);
    KeyEndOfKey(text, pos, k);
    ValueEndOfClean(text, p + 2, e);
    AtSlice(text, pos, k);
    AtSlice(text, p + 2, e);
  }

  /** The label expression finds exactly the printed pairs. */
  lemma {:induction false} FindsPrinted(text: string, pos: nat, pairs: seq<Pair>)
    requires KeysOk(pairs) && AllClean(pairs) && At(text, pos, Join(pairs)) && pos + |Join(pairs)| == |text|
    ensures FindLabels(text, pos) == pairs
    decreases |pairs|, 0, 1
  {
    if pairs != [] {
      var k, e, rest := pairs[0].key, pairs[0].value, pairs[1..];
      var one := k + "=" + ("\"" + e + "\"");
      assert Join(pairs) == one + Rest(rest);
      AtConcat(text, pos, one, Rest(rest));
      LabelAtPrinted(text, pos, k, e);
      FindsFirst(text, pos, pairs, pos + |one|);
    }
  }

  lemma FindsFirst(text: string, pos: nat, pairs: seq<Pair>, end: nat)
    requires pairs != [] && KeysOk(pairs) && AllClean(pairs)
    requires pos < |text| && LabelAt(text, pos) == Some(Match(pairs[0], end))
    requires At(text, end, Rest(pairs[1..])) && end + |Rest(pairs[1..])| == |text|
    ensures FindLabels(text, pos) == pairs
    decreases |pairs|, 0, 0
  {
    FindStep(text, pos);
    FindsRest(text, end, pairs[1..]);
  }

  lemma FindStep(text: string, pos: nat)
    requires pos < |text|
    ensures LabelAt(text, pos).Some? ==>
              FindLabels(text, pos) == [LabelAt(text, pos).value.pair] + FindLabels(text, LabelAt(text, pos).value.end)
    ensures LabelAt(text, pos).None? ==> FindLabels(text, pos) == FindLabels(text, pos + 1)
  {
  }

  lemma FindsRest(text: string, pos: nat, rest: seq<Pair>)
    requires KeysOk(rest) && AllClean(rest) && At(text, pos, Rest(rest)) && pos + |Rest(rest)| == |text|
    ensures FindLabels(text, pos) == rest
    decreases |rest|, 1
  {
    if rest != [] {
      AtConcat(text, pos, ",", Join(rest));
      AtIndex(text, pos, ",", 0);
      FindStep(text, pos);
      FindsPrinted(text, pos + 1, rest);
    }
  }

  // ---- What the label parser makes of a value ------------------------------------------------

  function HalfChar(c: char): string {
    if c == '\\' then "\\\\" else if c == '\n' then "\\n" else [c]
  }

  /** A value in which only the quotes were unescaped. */
  function HalfEach(v: string): string {
    if v == "" then "" else HalfChar(v[0]) + HalfEach(v[1..])
  }

  lemma UnquoteStep(c: char, e: string)
    requires e == "" || e[0] != '"'
    ensures UnescapeQuotes(EscChar(c) + e) == HalfChar(c) + UnescapeQuotes(e)
  {
    if c == '\\' {
      UnquoteEscape('\\', e);
    } else if c == '\n' {
      UnquoteEscape('n', e);
    } else if c == '"' {
      UnquotePair(e);
    } else {
      UnquoteHead(c, e);
    }
  }

  /** A backslash before anything but a quote stays. */
  lemma UnquoteEscape(x: char, e: string)
    requires x != '"' && (e == "" || e[0] != '"')
    ensures UnescapeQuotes(['\\', x] + e) == ['\\', x] + UnescapeQuotes(e)
  {
    UnquoteHead(x, e);
    UnquoteHead('\\', [x] + e);
    Assoc(['\\'], [x], e);
    Assoc(['\\'], [x], UnescapeQuotes(e));
    assert ['\\', x] == ['\\'] + [x];
  }

  lemma UnquoteHead(x: char, e: string)
    requires x != '\\' || e == "" || e[0] != '"'
    ensures UnescapeQuotes([x] + e) == [x] + UnescapeQuotes(e)
  {
    assert ([x] + e)[1..] == e;
  }

  lemma UnquotePair(e: string)
    ensures UnescapeQuotes("\\\"" + e) == "\"" + UnescapeQuotes(e)
  {
    assert ("\\\"" + e)[2..] == e;
  }

  lemma {:induction false} UnescapeQuotesOfEsc(v: string)
    ensures UnescapeQuotes(EscEach(v)) == HalfEach(v)
  {
    if v != "" {
      UnescapeQuotesOfEsc(v[1..]);
      UnquoteStep(v[0], EscEach(v[1..]));
    }
  }

  lemma {:induction false} HalfIsSameIff(v: string)
    ensures |HalfEach(v)| >= |v|
    ensures HalfEach(v) == v <==> Without(v, '\\') && Without(v, '\n')
  {
    if v != "" {
      HalfIsSameIff(v[1..]);
      assert v == [v[0]] + v[1..];
    }
  }

  lemma {:induction false} ToMapOfDistinct(pairs: seq<Pair>)
    requires DistinctKeys(pairs)
    ensures forall i :: 0 <= i < |pairs| ==>
              pairs[i].key in ToMap(pairs) && ToMap(pairs)[pairs[i].key] == UnescapeQuotes(pairs[i].value)
    ensures forall k :: k in ToMap(pairs) ==> exists i :: 0 <= i < |pairs| && pairs[i].key == k
  {
    if pairs != [] {
      ToMapOfDistinct(pairs[..|pairs| - 1]);
    }
  }

  /** Printing labels and parsing them gives the same keys; a value comes back unchanged exactly
      when it has neither a backslash nor a line feed. */
  lemma LabelRoundTrip(labels: seq<Pair>)
    requires KeysOk(labels) && DistinctKeys(labels)
    ensures var parsed := ParseLabels(Render(labels));
            && (forall k :: k in parsed <==> exists i :: 0 <= i < |labels| && labels[i].key == k)
            && forall i :: 0 <= i < |labels| ==>
                 && parsed[labels[i].key] == HalfEach(labels[i].value)
                 && (parsed[labels[i].key] == labels[i].value <==>
                       Without(labels[i].value, '\\') && Without(labels[i].value, '\n'))
  {
    var pairs := Escaped(labels);
    EscapedIsClean(labels);
    WholeAt(Join(pairs));
    FindsPrinted(Join(pairs), 0, pairs);
    ToMapOfDistinct(pairs);
    forall i | 0 <= i < |labels|
      ensures UnescapeQuotes(pairs[i].value) == HalfEach(labels[i].value)
      ensures HalfEach(labels[i].value) == labels[i].value <==>
                Without(labels[i].value, '\\') && Without(labels[i].value, '\n')
    {
      EscIsCharwise(labels[i].value);
      UnescapeQuotesOfEsc(labels[i].value);
      HalfIsSameIff(labels[i].value);
    }
    forall k
      ensures k in ToMap(pairs) <==> exists i :: 0 <= i < |labels| && labels[i].key == k
    {
      if i :| 0 <= i < |labels| && labels[i].key == k {
        assert pairs[i].key == k;
      }
    }
  }

  // ---- The sample expression -----------------------------------------------------------------

  predicate NamePart(c: char) {
    KeyPart(c) || c == ':'
  }

  predicate IsName(name: string) {
    name != "" && !('0' <= name[0] <= '9') && forall i :: 0 <= i < |name| ==> NamePart(name[i])
  }

  function NameEnd(text: string, pos: nat): (end: nat)
    requires pos <= |text|
    ensures pos <= end <= |text|
    ensures forall i :: pos <= i < end ==> NamePart(text[i])
    ensures end == |text| || !NamePart(text[end])
    decreases |text| - pos
  {
    if pos == |text| || !NamePart(text[pos]) then pos else NameEnd(text, pos + 1)
  }

  /** From pos on: whitespace, one word, and nothing but whitespace after it. */
  predicate Tail(sp: Spaces, text: string, pos: nat)
    requires pos <= |text|
  {
    var w := SkipSpace(sp, text, pos);
    var e := WordEnd(sp, text, w);
    pos < w < e && SkipSpace(sp, text, e) == |text|
  }

  /** The last closing brace below `end` that a value can follow. */
  function LastClose(sp: Spaces, text: string, from: nat, end: nat): (close: Option<nat>)
    requires end <= |text|
    ensures close.Some? ==> from <= close.value < end
  {
    if end <= from then None
    else if text[end - 1] == '}' && Tail(sp, text, end) then Some(end - 1)
    else LastClose(sp, text, from, end - 1)
  }

  datatype Sample = Sample(name: string, labels: string, value: string)

  /** Where `.*` has to stop. */
  function DotEnd(text: string, from: nat): (end: nat)
    requires from <= |text|
    ensures from <= end <= |text|
  {
    var newline := FindFrom(text, '\n', from);
    if newline == -1 then |text| else newline
  }

  function SampleAt(sp: Spaces, text: string, n: nat, close: nat): Sample
    requires n < close < |text|
  {
    var w := SkipSpace(sp, text, close + 1);
    Sample(text[..n], text[n + 1..close], text[w..WordEnd(sp, text, w)])
  }

  /** A name, the longest text between braces on one line, whitespace, and a value. */
  function ParseSample(sp: Spaces, text: string): Option<Sample> {
    var n := NameEnd(text, 0);
    if n == 0 || '0' <= text[0] <= '9' || n == |text| || text[n] != '{' then None
    else match LastClose(sp, text, n + 1, DotEnd(text, n + 1))
         case None => None
         case Some(close) => Some(SampleAt(sp, text, n, close))
  }

  function SampleLine(name: string, labels: string, value: string): string {
    name + "{" + labels + "} " + value
  }

  lemma {:induction false} LastCloseIs(sp: Spaces, text: string, from: nat, end: nat, close: nat)
    requires from <= close < end <= |text|
    requires text[close] == '}' && Tail(sp, text, close + 1)
    requires forall e :: close + 1 < e <= end ==> !(text[e - 1] == '}' && Tail(sp, text, e))
    ensures LastClose(sp, text, from, end) == Some(close)
  {
    if end > close + 1 {
      LastCloseIs(sp, text, from, end - 1, close);
    }
  }

  lemma TailOfValue(sp: Spaces, text: string, w: nat)
    requires Blank(sp) && 0 < w < |text| && text[w - 1] == ' '
    requires forall i :: w <= i < |text| ==> !sp(text[i])
    ensures Tail(sp, text, w - 1)
    ensures SkipSpace(sp, text, w - 1) == w && WordEnd(sp, text, w) == |text|
    ensures forall e :: w <= e <= |text| ==> !Tail(sp, text, e)
  {
    var w' := SkipSpace(sp, text, w - 1);
    assert w' == w by {
      assert !sp(text[w]);
    }
    assert WordEnd(sp, text, w) == |text|;
  }

  lemma ParseAt(sp: Spaces, text: string, n: nat, close: nat, sample: Sample)
    requires Blank(sp) && 0 < n < close < |text| - 2 && NameEnd(text, 0) == n && !('0' <= text[0] <= '9')
    requires text[n] == '{' && text[close] == '}' && text[close + 1] == ' '
    requires forall i :: n < i < |text| ==> text[i] != '\n'
    requires forall i :: close + 2 <= i < |text| ==> !sp(text[i])
    requires text[..n] == sample.name && text[n + 1..close] == sample.labels && text[close + 2..] == sample.value
    ensures ParseSample(sp, text) == Some(sample)
  {
    CloseFound(sp, text, n, close);
    DotToEnd(text, n + 1);
  }

  lemma CloseFound(sp: Spaces, text: string, n: nat, close: nat)
    requires Blank(sp) && n < close < |text| - 2
    requires text[close] == '}' && text[close + 1] == ' '
    requires forall i :: close + 2 <= i < |text| ==> !sp(text[i])
    ensures LastClose(sp, text, n + 1, |text|) == Some(close)
    ensures SampleAt(sp, text, n, close) == Sample(text[..n], text[n + 1..close], text[close + 2..])
  {
    TailOfValue(sp, text, close + 2);
    LastCloseIs(sp, text, n + 1, |text|, close);
    assert text[close + 2..|text|] == text[close + 2..];
  }

  lemma DotToEnd(text: string, from: nat)
    requires from <= |text| && forall i :: from <= i < |text| ==> text[i] != '\n'
    ensures DotEnd(text, from) == |text|
  {
  }

  lemma {:induction false} JoinHasNoNewline(pairs: seq<Pair>)
    requires KeysOk(pairs) && AllClean(pairs)
    ensures Without(Join(pairs), '\n')
    decreases |pairs|
  {
    if pairs != [] {
      JoinHasNoNewline(pairs[1..]);
      var k, e := pairs[0].key, pairs[0].value;
      forall i | 0 <= i < |e|
        ensures e[i] != '\n'
      {
        CleanHasNoNewline(e, i);
      }
      forall i | 0 <= i < |k|
        ensures k[i] != '\n'
      {
        assert KeyPart(k[i]);
      }
      WithoutConcat(k, "=", '\n');
      WithoutConcat("\"", e, '\n');
      WithoutConcat("\"" + e, "\"", '\n');
      WithoutConcat(k + "=", "\"" + e + "\"", '\n');
      WithoutConcat(",", Join(pairs[1..]), '\n');
      WithoutConcat(k + "=" + ("\"" + e + "\""), Rest(pairs[1..]), '\n');
    }
  }

  lemma SampleLayout(text: string, name: string, labels: string, value: string)
    requires name != "" && value != "" && text == SampleLine(name, labels, value)
    ensures var n, close := |name|, |name| + 1 + |labels|;
            && close < |text| - 2
            && text[n] == '{' && text[close] == '}' && text[close + 1] == ' ' && text[0] == name[0]
            && text[..n] == name && text[n + 1..close] == labels && text[close + 2..] == value
            && (forall i :: n < i < close ==> text[i] == labels[i - n - 1])
            && (forall i :: close + 2 <= i < |text| ==> text[i] == value[i - close - 2])
            && (forall i :: 0 <= i < n ==> text[i] == name[i])
  {
  }

  /** Parsing a printed sample line gives back the name, the label text and the value. */
  lemma SampleRoundTrip(sp: Spaces, name: string, labels: seq<Pair>, value: string)
    requires Blank(sp) && IsName(name) && IsField(sp, value) && KeysOk(labels)
    ensures ParseSample(sp, SampleLine(name, Render(labels), value)) == Some(Sample(name, Render(labels), value))
  {
    var raw := Render(labels);
    EscapedIsClean(labels);
    JoinHasNoNewline(Escaped(labels));
    SampleOfRaw(sp, name, raw, value);
  }

  lemma SampleOfRaw(sp: Spaces, name: string, raw: string, value: string)
    requires Blank(sp) && IsName(name) && IsField(sp, value) && Without(raw, '\n')
    ensures ParseSample(sp, SampleLine(name, raw, value)) == Some(Sample(name, raw, value))
  {
    var text := SampleLine(name, raw, value);
    SampleParts(sp, text, name, raw, value);
    ParseAt(sp, text, |name|, |name| + 1 + |raw|, Sample(name, raw, value));
  }

  /** What the parser needs to know about a printed line. */
  lemma SampleParts(sp: Spaces, text: string, name: string, raw: string, value: string)
    requires Blank(sp) && IsName(name) && IsField(sp, value) && Without(raw, '\n')
    requires text == SampleLine(name, raw, value)
    ensures var n, close := |name|, |name| + 1 + |raw|;
            && 0 < n < close < |text| - 2 && NameEnd(text, 0) == n && !('0' <= text[0] <= '9')
            && text[n] == '{' && text[close] == '}' && text[close + 1] == ' '
            && (forall i :: n < i < |text| ==> text[i] != '\n')
            && (forall i :: close + 2 <= i < |text| ==> !sp(text[i]))
            && text[..n] == name && text[n + 1..close] == raw && text[close + 2..] == value
  {
    SampleLayout(text, name, raw, value);
    var n := NameEnd(text, 0);
    assert text[|name|] == '{';
  }
}
