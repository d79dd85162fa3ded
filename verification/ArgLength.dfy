/**
 The predicted length of an argument. It takes where a run of backslashes starts for how long it is.
 */
module ArgLength {
  import opened Quoting

  /** Where the run of backslashes in front of position `q` starts. */
  function RunStart(s: string, q: nat): (r: nat)
    requires q <= |s|
    ensures r <= q
  {
    if q > 0 && s[q - 1] == '\\' then RunStart(s, q - 1) else q
  }

  function NextQuote(s: string, i: nat): (r: nat)
    requires i <= |s|
    ensures i <= r <= |s| && (r < |s| ==> s[r] == '"')
    decreases |s| - i
  {
    if i == |s| || s[i] == '"' then i else NextQuote(s, i + 1)
  }

  /** What the quotes from position `i` on are predicted to add. */
  function Predicted(s: string, i: nat): nat
    requires i <= |s|
    decreases |s| - i
  {
    if i == |s| then 0 else (if s[i] == '"' then 1 + RunStart(s, i) else 0) + Predicted(s, i + 1)
  }

  /** What they do add: the backslashes in front of each are doubled, and there is one more. */
  function Added(s: string, i: nat): nat
    requires i <= |s|
    decreases |s| - i
  {
    if i == |s| then 0 else (if s[i] == '"' then 1 + (i - RunStart(s, i)) else 0) + Added(s, i + 1)
  }

  lemma {:induction false} SkipToQuote(s: string, i: nat)
    requires i <= |s|
    ensures Predicted(s, i) == Predicted(s, NextQuote(s, i))
    ensures Predicted(s, i) == 0 <==> NextQuote(s, i) == |s|
    decreases |s| - i
  {
    if i < |s| && s[i] != '"' {
      SkipToQuote(s, i + 1);
    }
  }

  lemma {:induction false} QuoteIsFound(s: string, i: nat)
    requires i <= |s|
    ensures NextQuote(s, i) == |s| <==> '"' !in s[i..]
    decreases |s| - i
  {
    if i < |s| {
      QuoteIsFound(s, i + 1);
      assert s[i..] == [s[i]] + s[i + 1..];
    }
  }

  function PredictedLength(arg: string): nat {
    |arg| + if NeedsQuotes(arg) then Predicted(arg, 0) + 2 + RunStart(arg, |arg|) else 0
  }

  method StartOfRun(arg: string, end: nat) returns (slashes: nat)
    requires end <= |arg|
    ensures slashes == RunStart(arg, end)
  {
    slashes := end;
    while slashes != 0 && arg[slashes - 1] == '\\'
      invariant slashes <= end && RunStart(arg, slashes) == RunStart(arg, end)
      decreases slashes
    {
      slashes := slashes - 1;
    }
  }

  method Length(arg: string) returns (length: nat)
    ensures length == PredictedLength(arg)
  {
    length := |arg|;
    var quot := NextQuote(arg, 0);
    SkipToQuote(arg, 0);
    while quot != |arg|
      invariant quot <= |arg| && (quot < |arg| ==> arg[quot] == '"')
      invariant length + Predicted(arg, quot) == |arg| + Predicted(arg, 0)
      decreases |arg| - quot
    {
      var slashes := StartOfRun(arg, quot);
      SkipToQuote(arg, quot + 1);
      length := length + 1 + slashes;
      quot := NextQuote(arg, quot + 1);
    }
    var escaped := length != |arg|;
    QuoteIsFound(arg, 0);
    assert arg[0..] == arg;
    if escaped || ' ' in arg {
      length := length + 2;
      var slashes := StartOfRun(arg, |arg|);
      length := length + slashes;
    }
  }

  lemma {:induction false} SlashesLength(n: nat)
    ensures |Slashes(n)| == n
  {
    if n == 0 {
    } else {
      SlashesLength(n - 1);
    }
  }

  lemma {:induction false} EscapedLength(s: string, i: nat)
    requires i <= |s|
    ensures |Escaped(s[i..], i - RunStart(s, i))| == (|s| - i) + Added(s, i) + (|s| - RunStart(s, |s|)) + 1
    decreases |s| - i
  {
    hide Escaped, RunStart;
    if i == |s| {
      assert s[i..] == "";
      EscapedNothing(i - RunStart(s, i));
    } else {
      NextLength(s, i);
      EscapedLength(s, i + 1);
    }
  }

  lemma EscapedNothing(n: nat)
    ensures |Escaped("", n)| == n + 1
  {
    SlashesLength(n);
  }

  lemma NextLength(s: string, i: nat)
    requires i < |s|
    ensures |Escaped(s[i..], i - RunStart(s, i))| ==
            1 + (if s[i] == '"' then 1 + (i - RunStart(s, i)) else 0) + |Escaped(s[i + 1..], i + 1 - RunStart(s, i + 1))|
  {
    RunGoesOn(s, i);
    hide Escaped, RunStart;
    assert s[i..][1..] == s[i + 1..];
    EscapedNext(s[i..], i - RunStart(s, i));
  }

  lemma RunGoesOn(s: string, i: nat)
    requires i < |s|
    ensures RunStart(s, i + 1) == if s[i] == '\\' then RunStart(s, i) else i + 1
  {
  }

  lemma EscapedNext(s: string, n: nat)
    requires s != ""
    ensures |Escaped(s, n)| ==
            if s[0] == '\\' then 1 + |Escaped(s[1..], n + 1)|
            else if s[0] == '"' then n + 2 + |Escaped(s[1..], 0)|
            else 1 + |Escaped(s[1..], 0)|
  {
    SlashesLength(n);
  }

  lemma QuotedLength(arg: string)
    ensures |Quoted(arg)| == |arg| + if NeedsQuotes(arg) then Added(arg, 0) + 2 + (|arg| - RunStart(arg, |arg|)) else 0
  {
    assert arg[0..] == arg;
    EscapedLength(arg, 0);
  }

  /** By how much the runs in front of the quotes are misjudged. */
  function Misjudged(s: string, i: nat): int
    requires i <= |s|
    decreases |s| - i
  {
    if i == |s| then 0 else (if s[i] == '"' then 2 * RunStart(s, i) - i else 0) + Misjudged(s, i + 1)
  }

  lemma {:induction false} PredictionError(s: string, i: nat)
    requires i <= |s|
    ensures Predicted(s, i) == Added(s, i) + Misjudged(s, i)
    decreases |s| - i
  {
    if i < |s| {
      PredictionError(s, i + 1);
    }
  }

  /** How far the prediction is off: each run of backslashes counts with the distance of its start
      from the start of the argument, less its length. */
  lemma LengthError(arg: string)
    ensures PredictedLength(arg) - |Quoted(arg)| ==
            if NeedsQuotes(arg) then Misjudged(arg, 0) + (2 * RunStart(arg, |arg|) - |arg|) else 0
  {
    QuotedLength(arg);
    PredictionError(arg, 0);
  }

  /** Without quotes the prediction holds exactly if there is no space, or if just half of the
      argument is the backslashes at its end. */
  lemma SpacesAreMisjudged(arg: string)
    requires '"' !in arg
    ensures PredictedLength(arg) == |Quoted(arg)| <==> ' ' !in arg || |arg| == 2 * (|arg| - RunStart(arg, |arg|))
  {
    assert arg[0..] == arg;
    NothingMisjudged(arg, 0);
    LengthError(arg);
  }

  lemma {:induction false} NothingMisjudged(s: string, i: nat)
    requires i <= |s| && '"' !in s
    ensures Misjudged(s, i) == 0
    decreases |s| - i
  {
    if i < |s| {
      assert s[i] in s;
      NothingMisjudged(s, i + 1);
    }
  }

  lemma PlainWordsAreMisjudged()
    ensures PredictedLength("a b") == 8 && |Quoted("a b")| == 5
  {
    assert "a b"[1] == ' ';
    NothingMisjudged("a b", 0);
    PredictionError("a b", 0);
    QuotedLength("a b");
    assert RunStart("a b", 3) == 3;
    AddedNothing("a b", 0);
  }

  lemma {:induction false} AddedNothing(s: string, i: nat)
    requires i <= |s| && '"' !in s
    ensures Added(s, i) == 0
    decreases |s| - i
  {
    if i < |s| {
      assert s[i] in s;
      AddedNothing(s, i + 1);
    }
  }
}
