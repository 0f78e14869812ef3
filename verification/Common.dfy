/** The optional value used wherever the program returns None or misses a key. */
module Wrappers {
  datatype Option<+T> = None | Some(value: T)
}

/** Time is a real number of seconds; a time stamp on the wire keeps whole seconds only. */
module Clock {
  type Time = real

  /** What `strftime` keeps of a time, and what `parse_time` reads back from it. */
  function Stamp(t: Time): (s: int)
    ensures s as real <= t < s as real + 1.0
  {
    t.Floor
  }

  function Longer(a: Time, b: Time): Time {
    if a > b then a else b
  }

  lemma StampMonotone(t: Time, u: Time)
    requires t <= u
    ensures Stamp(t) <= Stamp(u)
  {
  }
}

/** Counting the true flags of a sequence. Every "number of ... such that" is stated with it. */
module Tallies {
  function Min(a: int, b: int): int {
    if a < b then a else b
  }

  function Max(a: int, b: int): int {
    if a < b then b else a
  }

  function Tally(flags: seq<bool>): (n: nat)
    ensures n <= |flags|
  {
    if flags == [] then 0
    else Tally(flags[..|flags| - 1]) + if flags[|flags| - 1] then 1 else 0
  }

  lemma TallyStep(flags: seq<bool>, k: nat)
    requires k < |flags|
    ensures Tally(flags[..k + 1]) == Tally(flags[..k]) + if flags[k] then 1 else 0
  {
    assert flags[..k + 1][..k] == flags[..k];
  }

  lemma {:induction false} TallyConcat(a: seq<bool>, b: seq<bool>)
    ensures Tally(a + b) == Tally(a) + Tally(b)
  {
    if b == [] {
      assert a + b == a;
    } else {
      var b' := b[..|b| - 1];
      TallyConcat(a, b');
      assert (a + b)[..|a + b| - 1] == a + b';
    }
  }

  lemma {:induction false} TallyImplies(a: seq<bool>, b: seq<bool>)
    requires |a| == |b|
    requires forall i :: 0 <= i < |a| && a[i] ==> b[i]
    ensures Tally(a) <= Tally(b)
  {
    if a != [] {
      TallyImplies(a[..|a| - 1], b[..|b| - 1]);
    }
  }

  lemma {:induction false} TallyNone(flags: seq<bool>)
    ensures Tally(flags) == 0 <==> forall i :: 0 <= i < |flags| ==> !flags[i]
  {
    if flags != [] {
      var init := flags[..|flags| - 1];
      TallyNone(init);
      assert forall i :: 0 <= i < |init| ==> init[i] == flags[i];
    }
  }

  lemma {:induction false} TallyAll(flags: seq<bool>)
    requires forall i :: 0 <= i < |flags| ==> flags[i]
    ensures Tally(flags) == |flags|
  {
    if flags != [] {
      TallyAll(flags[..|flags| - 1]);
    }
  }

  /** It is the number of positions at which the flag is set. */
  lemma {:induction false} TallyIsCount(flags: seq<bool>)
    ensures Tally(flags) == |set i | 0 <= i < |flags| && flags[i]|
  {
    if flags != [] {
      var n := |flags| - 1;
      var init := flags[..n];
      TallyIsCount(init);
      var before, all := set i | 0 <= i < |init| && init[i], set i | 0 <= i < |flags| && flags[i];
      assert all == if flags[n] then before + {n} else before;
    }
  }

  lemma {:induction false} TallyPrefix(flags: seq<bool>, i: nat, j: nat)
    requires i <= j <= |flags|
    ensures Tally(flags[..i]) <= Tally(flags[..j])
    decreases j - i
  {
    if i < j {
      TallyPrefix(flags, i, j - 1);
      TallyStep(flags, j - 1);
    }
  }
}

/** Parts of a text at a position. */
module Texts {
  /** `part` stands in the text at this position. */
  predicate At(text: string, pos: nat, part: string): (at: bool)
    ensures at ==> part == "" || pos + |part| <= |text|
    decreases |part|
  {
    part == "" || (pos < |text| && text[pos] == part[0] && At(text, pos + 1, part[1..]))
  }

  predicate Without(text: string, c: char) {
    forall i :: 0 <= i < |text| ==> text[i] != c
  }

  lemma {:induction false} AtIndex(text: string, pos: nat, part: string, i: nat)
    requires At(text, pos, part) && i < |part|
    ensures pos + i < |text| && text[pos + i] == part[i]
    decreases i
  {
    if i > 0 {
      AtIndex(text, pos + 1, part[1..], i - 1);
    }
  }

  lemma {:induction false} AtSlice(text: string, pos: nat, part: string)
    requires At(text, pos, part) && pos <= |text|
    ensures pos + |part| <= |text| && text[pos..pos + |part|] == part
  {
    forall i | 0 <= i < |part|
      ensures text[pos..pos + |part|][i] == part[i]
    {
      AtIndex(text, pos, part, i);
    }
  }

  lemma {:induction false} AtConcat(text: string, pos: nat, a: string, b: string)
    requires At(text, pos, a + b)
    ensures At(text, pos, a) && At(text, pos + |a|, b)
    decreases |a|
  {
    if a == "" {
      assert a + b == b;
    } else {
      assert (a + b)[1..] == a[1..] + b;
      AtConcat(text, pos + 1, a[1..], b);
    }
  }

  lemma {:induction false} AtSelf(before: string, part: string)
    ensures At(before + part, |before|, part)
    decreases |part|
  {
    if part != "" {
      AtSelf(before + [part[0]], part[1..]);
      assert before + [part[0]] + part[1..] == before + part;
    }
  }

  lemma WholeAt(text: string)
    ensures At(text, 0, text)
  {
    AtSelf("", text);
    assert "" + text == text;
  }

  lemma Assoc<T>(a: seq<T>, b: seq<T>, c: seq<T>)
    ensures a + b + c == a + (b + c)
  {
  }

  lemma WithoutConcat(a: string, b: string, c: char)
    ensures Without(a + b, c) <==> Without(a, c) && Without(b, c)
  {
    var ab := a + b;
    assert forall i :: 0 <= i < |a| ==> ab[i] == a[i];
    assert forall i :: 0 <= i < |b| ==> ab[|a| + i] == b[i];
  }
}
