/** mg_match without captures: glob matching that remembers a single wildcard. */
module Glob {

  predicate IsWild(c: char) {
    c == '*' || c == '#'
  }

  /** The declarative relation: `?` is any one character, a wildcard any run. */
  predicate Matches(p: string, s: string)
    decreases |p| + |s|
  {
    if p == [] then s == []
    else if IsWild(p[0]) then Matches(p[1..], s) || (s != [] && Matches(p, s[1..]))
    else s != [] && (p[0] == '?' || p[0] == s[0]) && Matches(p[1..], s[1..])
  }

  /** The same with the path separator, which `*` is not to run over. */
  predicate PathMatches(p: string, s: string)
    decreases |p| + |s|
  {
    if p == [] then s == []
    else if IsWild(p[0]) then
      PathMatches(p[1..], s) || (s != [] && (p[0] == '#' || s[0] != '/') && PathMatches(p, s[1..]))
    else s != [] && (p[0] == '?' || p[0] == s[0]) && PathMatches(p[1..], s[1..])
  }

  /** Nothing for the separator to stop. */
  predicate Plain(p: string, s: string) {
    '*' !in p || '/' !in s
  }

  lemma {:induction false} PlainMatches(p: string, s: string)
    requires Plain(p, s)
    ensures PathMatches(p, s) <==> Matches(p, s)
    decreases |p| + |s|
  {
    if p != [] {
      if IsWild(p[0]) {
        PlainMatches(p[1..], s);
      }
      if s != [] {
        PlainMatches(p[1..], s[1..]);
        PlainMatches(p, s[1..]);
      }
    }
  }

  /** Positions in pattern and string, and those to go back to. */
  datatype Cursor = Cursor(i: nat, j: nat, ni: nat, nj: nat)

  datatype Outcome = Go(c: Cursor) | Answer(b: bool)

  predicate InRange(p: string, s: string, c: Cursor) {
    c.i <= |p| && c.j <= |s| && (c.nj > 0 ==> c.ni < |p|)
  }

  /** One turn of the loop. `beyond` is the byte behind the end of the string, which
      the test for a path separator may read. */
  function Turn(p: string, s: string, c: Cursor, beyond: char): Outcome
    requires InRange(p, s, c)
  {
    var i, j := c.i, c.j;
    if i >= |p| && j >= |s| then Answer(true)
    else if i < |p| && j < |s| && (p[i] == '?' || s[j] == p[i]) then Go(c.(i := i + 1, j := j + 1))
    else if i < |p| && IsWild(p[i]) then Go(Cursor(i + 1, j, i, j + 1))
    else if c.nj > 0 && c.nj <= |s| && (p[c.ni] == '#' || (if j < |s| then s[j] else beyond) != '/')
    then Go(c.(i := c.ni, j := c.nj))
    else Answer(false)
  }

  /** The outcome of at most n turns. */
  function Run(p: string, s: string, c: Cursor, beyond: char, n: nat): Outcome
    requires InRange(p, s, c)
    ensures Run(p, s, c, beyond, n).Go? ==> InRange(p, s, Run(p, s, c, beyond, n).c)
  {
    if n == 0 then Go(c)
    else
      match Run(p, s, c, beyond, n - 1)
      case Go(d) => Turn(p, s, d, beyond)
      case Answer(b) => Answer(b)
  }

  /** The loop ends, with this answer. */
  ghost predicate Decides(p: string, s: string, beyond: char, b: bool) {
    exists n: nat :: Run(p, s, START, beyond, n) == Answer(b)
  }

  /** No wildcard character of the pattern occurs in the string. */
  predicate NoWildInString(p: string, s: string) {
    && ('#' in p ==> '#' !in s)
    && ('*' in p ==> '*' !in s)
  }

  // ----- facts about the relation -----

  lemma {:induction false} WildAbsorbs(p: string, s: string, n: nat)
    requires p != [] && IsWild(p[0]) && n <= |s| && Matches(p, s[n..])
    ensures Matches(p, s)
    decreases n
  {
    if n > 0 {
      assert s[n..] == s[1..][n - 1..];
      WildAbsorbs(p, s[1..], n - 1);
    } else {
      assert s[0..] == s;
    }
  }

  /** G(i, j): the rest of the pattern matches the rest of the string. */
  predicate Rest(p: string, s: string, i: nat, j: nat)
    requires i <= |p| && j <= |s|
  {
    Matches(p[i..], s[j..])
  }

  lemma RestOnce(p: string, s: string, i: nat, j: nat)
    requires i < |p| && j <= |s|
    ensures p[i..][1..] == p[i + 1..]
    ensures j < |s| ==> s[j..][1..] == s[j + 1..]
    ensures IsWild(p[i]) ==> (Rest(p, s, i, j) <==> Rest(p, s, i + 1, j) || (j < |s| && Rest(p, s, i, j + 1)))
    ensures !IsWild(p[i]) ==>
      (Rest(p, s, i, j) <==> j < |s| && (p[i] == '?' || p[i] == s[j]) && Rest(p, s, i + 1, j + 1))
  {
  }

  /** If a segment followed by a wildcard matches later, the wildcard also absorbs
      from the earlier place: going back further than the last wildcard is useless. */
  lemma {:induction false} LaterSegmentIsAbsorbed(p: string, s: string, from: nat, to: nat, at: nat, now: nat)
    requires from <= to < |p| && IsWild(p[to])
    requires forall k :: from <= k < to ==> !IsWild(p[k])
    requires at <= |s| && now <= at + (to - from)
    requires Rest(p, s, from, at)
    ensures now <= |s| && Rest(p, s, to, now)
    decreases if from <= to then to - from else 0
  {
    RestOnce(p, s, from, at);
    if from == to {
      assert s[now..][at - now..] == s[at..];
      WildAbsorbs(p[to..], s[now..], at - now);
    } else {
      LaterSegmentIsAbsorbed(p, s, from + 1, to, at + 1, now);
    }
  }

  /** The same through the remembered wildcard, wherever it is made to stop. */
  lemma {:induction false} RetryIsAbsorbed(p: string, s: string, ni: nat, at: nat, i: nat, j: nat)
    requires ni < i < |p| && IsWild(p[ni]) && IsWild(p[i])
    requires forall k :: ni < k < i ==> !IsWild(p[k])
    requires at <= |s| && j <= |s| && j <= at + (i - ni - 1)
    requires Rest(p, s, ni, at)
    ensures Rest(p, s, i, j)
    decreases |s| - at
  {
    RestOnce(p, s, ni, at);
    if Rest(p, s, ni + 1, at) {
      LaterSegmentIsAbsorbed(p, s, ni + 1, i, at, j);
    } else {
      RetryIsAbsorbed(p, s, ni, at + 1, i, j);
    }
  }

  // ----- one turn -----

  /** The retry position belongs to the last wildcard passed, and the characters
      matched since then lie behind it one for one. */
  ghost predicate Aligned(p: string, s: string, c: Cursor) {
    && InRange(p, s, c)
    && (c.nj > 0 ==>
          && IsWild(p[c.ni]) && c.ni <= c.i
          && (c.i == c.ni ==> c.j == c.nj)
          && (c.i > c.ni ==> c.j == c.nj - 1 + (c.i - c.ni - 1))
          && forall k :: c.ni < k < c.i ==> !IsWild(p[k]))
    && (c.nj == 0 ==> forall k :: 0 <= k < c.i ==> !IsWild(p[k]))
  }

  /** What is still open: the present position, or the remembered one. */
  predicate Open(p: string, s: string, c: Cursor)
    requires InRange(p, s, c)
  {
    Rest(p, s, c.i, c.j) || (0 < c.nj <= |s| && Rest(p, s, c.ni, c.nj))
  }

  /** No turn opens a match that was not open before: for all patterns and strings. */
  lemma TurnIsSound(p: string, s: string, c: Cursor, beyond: char)
    requires InRange(p, s, c)
    ensures Turn(p, s, c, beyond).Go? ==>
      InRange(p, s, Turn(p, s, c, beyond).c) && (Open(p, s, Turn(p, s, c, beyond).c) ==> Open(p, s, c))
    ensures Turn(p, s, c, beyond) == Answer(true) ==> Open(p, s, c)
  {
    hide Matches;
    if c.i < |p| {
      RestOnce(p, s, c.i, c.j);
      if c.j < |s| && IsWild(p[c.i]) {
        RestOnce(p, s, c.i, c.j + 1);
      }
    } else if c.j == |s| {
      assert Matches(p[c.i..], s[c.j..]) by {
        MatchesNothing();
        assert p[c.i..] == "" && s[c.j..] == "";
      }
    }
  }

  lemma MatchesNothing()
    ensures Matches("", "")
  {
  }

  lemma {:induction false} NothingMatchesOnlyNothing(s: string)
    ensures Matches("", s) <==> s == ""
  {
  }

  lemma {:induction false} SegmentFits(p: string, s: string, from: nat, to: nat, at: nat)
    requires from <= to <= |p| && at <= |s| && Rest(p, s, from, at)
    requires forall k :: from <= k < to ==> !IsWild(p[k])
    ensures at + (to - from) <= |s|
    decreases if from <= to then to - from else 0
  {
    if from < to {
      RestOnce(p, s, from, at);
      SegmentFits(p, s, from + 1, to, at + 1);
    }
  }

  /** What has been compared since the wildcard must fit wherever that is made to stop:
      at the end of the string going back is useless. */
  lemma {:induction false} RetryFits(p: string, s: string, ni: nat, at: nat, i: nat)
    requires ni < i <= |p| && IsWild(p[ni]) && at <= |s| && Rest(p, s, ni, at)
    requires forall k :: ni < k < i ==> !IsWild(p[k])
    ensures at + (i - ni - 1) <= |s|
    decreases if at <= |s| then |s| - at else 0
  {
    RestOnce(p, s, ni, at);
    if Rest(p, s, ni + 1, at) {
      SegmentFits(p, s, ni + 1, i, at);
    } else {
      RetryFits(p, s, ni, at + 1, i);
    }
  }

  /** Without a wildcard in the string no turn gives up an open match either, though
      it forgets all earlier wildcards. */
  lemma TurnIsComplete(p: string, s: string, c: Cursor, beyond: char)
    requires Aligned(p, s, c) && Plain(p, s) && NoWildInString(p, s)
    ensures Turn(p, s, c, beyond).Go? ==>
      Aligned(p, s, Turn(p, s, c, beyond).c) && (Open(p, s, c) ==> Open(p, s, Turn(p, s, c, beyond).c))
    ensures Turn(p, s, c, beyond) == Answer(false) ==> !Open(p, s, c)
  {
    hide Matches;
    if c.i < |p| {
      RestOnce(p, s, c.i, c.j);
      if IsWild(p[c.i]) && 0 < c.nj <= |s| && c.ni < c.i && Rest(p, s, c.ni, c.nj) {
        RetryIsAbsorbed(p, s, c.ni, c.nj, c.i, c.j);
      }
      if !IsWild(p[c.i]) && c.j == |s| && 0 < c.nj <= |s| && Rest(p, s, c.ni, c.nj) {
        RetryFits(p, s, c.ni, c.nj, c.i);
      }
    } else {
      NothingMatchesOnlyNothing(s[c.j..]);
      assert p[c.i..] == "";
    }
  }

  /** The wildcards still to come, then the places still to retry, then the pattern
      still to compare. */
  function WildsLeft(p: string, c: Cursor): int {
    if c.nj == 0 then |p| + 1 else |p| - c.ni
  }

  function RetriesLeft(s: string, c: Cursor): int {
    |s| + 1 - c.nj
  }

  function PatternLeft(p: string, c: Cursor): int {
    if c.nj > 0 && c.i == c.ni then 0 else 1 + |p| - c.i
  }

  ghost predicate Closer(p: string, s: string, d: Cursor, c: Cursor) {
    || 0 <= WildsLeft(p, d) < WildsLeft(p, c)
    || (WildsLeft(p, d) == WildsLeft(p, c) &&
       (|| 0 <= RetriesLeft(s, d) < RetriesLeft(s, c)
        || (RetriesLeft(s, d) == RetriesLeft(s, c) && 0 <= PatternLeft(p, d) < PatternLeft(p, c))))
  }

  lemma TurnGetsCloser(p: string, s: string, c: Cursor, beyond: char)
    requires Aligned(p, s, c) && NoWildInString(p, s) && Turn(p, s, c, beyond).Go?
    ensures Closer(p, s, Turn(p, s, c, beyond).c, c)
    ensures Aligned(p, s, Turn(p, s, c, beyond).c)
    ensures 0 <= WildsLeft(p, c) && 0 <= RetriesLeft(s, c) && 0 <= PatternLeft(p, c)
  {
  }

  // ----- the loop -----

  const START := Cursor(0, 0, 0, 0)

  /** What the loop keeps true after n turns. */
  ghost predicate Tracks(p: string, s: string, beyond: char, n: nat, c: Cursor) {
    && Aligned(p, s, c)
    && (Open(p, s, c) ==> Matches(p, s))
    && (Plain(p, s) && Matches(p, s) ==> Open(p, s, c))
    && Run(p, s, START, beyond, n) == Go(c)
  }

  lemma StartTracks(p: string, s: string, beyond: char)
    ensures Tracks(p, s, beyond, 0, START)
  {
    hide Matches;
    assert p[0..] == p && s[0..] == s;
  }

  lemma {:induction false} TurnTracks(p: string, s: string, beyond: char, n: nat, c: Cursor)
    requires InRange(p, s, c) && Tracks(p, s, beyond, n, c) && NoWildInString(p, s)
    ensures Turn(p, s, c, beyond).Go? ==> Tracks(p, s, beyond, n + 1, Turn(p, s, c, beyond).c)
    ensures Turn(p, s, c, beyond).Answer? ==>
      var b := Turn(p, s, c, beyond).b;
      (b ==> Matches(p, s)) && (Plain(p, s) ==> (b <==> Matches(p, s))) && Decides(p, s, beyond, b)
  {
    hide Matches, Open, Aligned, Turn, NoWildInString;
    TurnIsSound(p, s, c, beyond);
    if Plain(p, s) {
      TurnIsComplete(p, s, c, beyond);
    }
    assert Run(p, s, START, beyond, n + 1) == Turn(p, s, c, beyond);
    if Turn(p, s, c, beyond).Go? {
      TurnGetsCloser(p, s, c, beyond);
    }
  }

  lemma DecidedAtOnce(p: string, s: string, beyond: char, n: nat, last: nat, c: Cursor)
    requires Run(p, s, START, beyond, n) == Go(c) && Run(p, s, START, beyond, last).Answer?
    ensures n < last && Run(p, s, START, beyond, n + 1) == Turn(p, s, c, beyond)
  {
    if last <= n {
      AnswersStay(p, s, START, beyond, last, n);
    }
  }

  /** The matcher, on every input on which its loop ends. `beyond` stands for the byte
      behind the string. */
  method Match(s: string, p: string, beyond: char) returns (b: bool)
    requires Decides(p, s, beyond, true) || Decides(p, s, beyond, false)
    ensures Decides(p, s, beyond, b)
    ensures b ==> Matches(p, s)
    ensures Plain(p, s) && NoWildInString(p, s) ==> (b <==> PathMatches(p, s))
  {
    var i, j, ni, nj := 0, 0, 0, 0;
    ghost var turns: nat := 0;
    ghost var last: nat :| Run(p, s, START, beyond, last).Answer?;
    hide Matches, NoWildInString, Decides, Run;
    assert Run(p, s, START, beyond, 0) == Go(START) by {
      NoTurns(p, s, beyond);
    }
    while i < |p| || j < |s|
      invariant InRange(p, s, Cursor(i, j, ni, nj))
      invariant Run(p, s, START, beyond, turns) == Go(Cursor(i, j, ni, nj))
      decreases last - turns
    {
      DecidedAtOnce(p, s, beyond, turns, last, Cursor(i, j, ni, nj));
      turns := turns + 1;
      if i < |p| && j < |s| && (p[i] == '?' || s[j] == p[i]) {
        i, j := i + 1, j + 1;
      } else if i < |p| && (p[i] == '*' || p[i] == '#') {
        ni, nj := i, j + 1;
        i := i + 1;
      } else if nj > 0 && nj <= |s| && (p[ni] == '#' || (if j < |s| then s[j] else beyond) != '/') {
        i, j := ni, nj;
      } else {
        Decided(p, s, beyond, turns, false);
        return false;
      }
    }
    DecidedAtOnce(p, s, beyond, turns, last, Cursor(i, j, ni, nj));
    Decided(p, s, beyond, turns + 1, true);
    return true;
  }

  lemma {:induction false} NoTurns(p: string, s: string, beyond: char)
    ensures Run(p, s, START, beyond, 0) == Go(START)
  {
  }

  /** What an answer after some turns is worth. */
  lemma {:induction false} Decided(p: string, s: string, beyond: char, n: nat, b: bool)
    requires Run(p, s, START, beyond, n) == Answer(b)
    ensures Decides(p, s, beyond, b)
    ensures b ==> Matches(p, s)
    ensures Plain(p, s) && NoWildInString(p, s) ==> (b <==> PathMatches(p, s))
  {
    assert Decides(p, s, beyond, b);
    hide Matches, Run, NoWildInString;
    if b {
      TrueMeansMatch(p, s, beyond);
    }
    if Plain(p, s) && NoWildInString(p, s) {
      PlainMatches(p, s);
      AnswersMatch(p, s, beyond);
      OneAnswer(p, s, beyond, b, Matches(p, s));
    }
  }

  lemma AlignedIfTracked(p: string, s: string, beyond: char, n: nat, c: Cursor)
    requires Tracks(p, s, beyond, n, c)
    ensures Aligned(p, s, c)
  {
  }

  // ----- when the answer is right -----

  lemma {:induction false} AnswersStay(p: string, s: string, c: Cursor, beyond: char, n: nat, m: nat)
    requires InRange(p, s, c) && n <= m && Run(p, s, c, beyond, n).Answer?
    ensures Run(p, s, c, beyond, m) == Run(p, s, c, beyond, n)
    decreases m
  {
    if n < m {
      AnswersStay(p, s, c, beyond, n, m - 1);
    }
  }

  /** The loop has at most one answer. */
  lemma OneAnswer(p: string, s: string, beyond: char, a: bool, b: bool)
    requires Decides(p, s, beyond, a) && Decides(p, s, beyond, b)
    ensures a == b
  {
    hide Run, Turn;
    var n: nat :| Run(p, s, START, beyond, n) == Answer(a);
    var m: nat :| Run(p, s, START, beyond, m) == Answer(b);
    AnswersStay(p, s, START, beyond, n, if n <= m then m else n);
    AnswersStay(p, s, START, beyond, m, if n <= m then m else n);
  }

  lemma {:induction false} RunIsSound(p: string, s: string, beyond: char, n: nat)
    ensures
      var o := Run(p, s, START, beyond, n);
      (o == Answer(true) || (o.Go? && Open(p, s, o.c))) ==> Matches(p, s)
  {
    hide Matches, Turn;
    if n == 0 {
      assert p[0..] == p && s[0..] == s;
    } else {
      RunIsSound(p, s, beyond, n - 1);
      var o := Run(p, s, START, beyond, n - 1);
      if o.Go? {
        TurnIsSound(p, s, o.c, beyond);
      }
    }
  }

  /** Whatever pattern and string, and whatever byte lies behind the string, `true`
      is never wrong. */
  lemma {:induction false} TrueMeansMatch(p: string, s: string, beyond: char)
    requires Decides(p, s, beyond, true)
    ensures Matches(p, s)
  {
    var n: nat :| Run(p, s, START, beyond, n) == Answer(true);
    RunIsSound(p, s, beyond, n);
  }

  lemma {:induction false} DecidesFrom(p: string, s: string, beyond: char, n: nat, c: Cursor)
    requires InRange(p, s, c) && Tracks(p, s, beyond, n, c) && NoWildInString(p, s)
    ensures Decides(p, s, beyond, true) || Decides(p, s, beyond, false)
    ensures Plain(p, s) ==> Decides(p, s, beyond, Matches(p, s))
    decreases WildsLeft(p, c), RetriesLeft(s, c), PatternLeft(p, c)
  {
    hide Matches, Tracks, Aligned, Turn, NoWildInString, Decides;
    TurnTracks(p, s, beyond, n, c);
    if Turn(p, s, c, beyond).Go? {
      AlignedIfTracked(p, s, beyond, n, c);
      TurnGetsCloser(p, s, c, beyond);
      TurnIsSound(p, s, c, beyond);
      DecidesFrom(p, s, beyond, n + 1, Turn(p, s, c, beyond).c);
    }
  }

  /** Without a wildcard of the pattern in the string the loop ends, and without `*`
      in the pattern or `/` in the string its answer is the relation. */
  lemma {:induction false} AnswersMatch(p: string, s: string, beyond: char)
    requires NoWildInString(p, s)
    ensures Decides(p, s, beyond, true) || Decides(p, s, beyond, false)
    ensures Plain(p, s) ==> Decides(p, s, beyond, Matches(p, s))
  {
    StartTracks(p, s, beyond);
    DecidesFrom(p, s, beyond, 0, START);
  }

  // ----- when it is wrong -----

  function Questions(n: nat): (q: string)
    ensures |q| == n && forall k :: 0 <= k < n ==> q[k] == '?'
  {
    seq(n, _ => '?')
  }

  lemma {:induction false} QuestionsMatch(n: nat, s: string)
    ensures PathMatches(Questions(n), s) <==> |s| == n
    decreases n
  {
    if n == 0 {
      assert Questions(0) == [];
    } else if s != [] {
      QuestionsMatch(n - 1, s[1..]);
      assert Questions(n)[1..] == Questions(n - 1);
    }
  }

  lemma {:induction false} QuestionsThen(q: string, s: string, k: nat)
    ensures PathMatches(Questions(k) + q, s) <==> k <= |s| && PathMatches(q, s[k..])
    decreases k
  {
    var p := Questions(k) + q;
    if k == 0 {
      assert p == q && s[0..] == s;
    } else if s != [] {
      assert p[0] == '?' && p[1..] == Questions(k - 1) + q;
      QuestionsThen(q, s[1..], k - 1);
      if k <= |s| {
        assert s[1..][k - 1..] == s[k..];
      }
    }
  }

  /** A wildcard that stands for nothing. */
  lemma {:induction false} WildThen(w: char, q: string, s: string)
    requires IsWild(w) && PathMatches(q, s)
    ensures PathMatches([w] + q, s)
  {
    assert ([w] + q)[1..] == q;
  }

  /** A pattern that matches s, but takes the wildcard at k of s literally. */
  function Trap(s: string, k: nat): (p: string)
    requires k < |s|
    ensures |p| == |s| + 1 && p[k] == s[k] && forall j :: 0 <= j < |p| && j != k ==> p[j] == '?'
  {
    Questions(k) + ([s[k]] + Questions(|s| - k))
  }

  lemma {:induction false} TrapMatches(s: string, k: nat)
    requires k < |s| && IsWild(s[k])
    ensures PathMatches(Trap(s, k), s)
  {
    hide PathMatches;
    QuestionsMatch(|s| - k, s[k..]);
    WildThen(s[k], Questions(|s| - k), s[k..]);
    QuestionsThen([s[k]] + Questions(|s| - k), s, k);
  }

  lemma {:induction false} TrapRun(s: string, k: nat, beyond: char, n: nat)
    requires k < |s| && n <= |s|
    ensures Run(Trap(s, k), s, START, beyond, n) == Go(Cursor(n, n, 0, 0))
  {
    if n > 0 {
      TrapRun(s, k, beyond, n - 1);
    }
  }

  lemma {:induction false} WildIsTrapped(s: string, k: nat, beyond: char)
    requires k < |s| && IsWild(s[k])
    ensures PathMatches(Trap(s, k), s) && !Decides(Trap(s, k), s, beyond, true)
  {
    var p := Trap(s, k);
    TrapMatches(s, k);
    TrapRun(s, k, beyond, |s|);
    assert Run(p, s, START, beyond, |s| + 1) == Answer(false);
    if Decides(p, s, beyond, true) {
      OneAnswer(p, s, beyond, true, false);
    }
  }

  /** Exactly the strings without `#` are answered rightly for every pattern that
      has no `*`: the comparison of characters comes before the test for a wildcard. */
  lemma {:induction false} RightForEveryPattern(s: string, beyond: char)
    ensures (forall p: string | '*' !in p :: Decides(p, s, beyond, Matches(p, s))) <==> '#' !in s
  {
    if '#' !in s {
      forall p: string | '*' !in p
        ensures Decides(p, s, beyond, Matches(p, s))
      {
        AnswersMatch(p, s, beyond);
      }
    } else {
      var k: nat :| k < |s| && s[k] == '#';
      var p := Trap(s, k);
      WildIsTrapped(s, k, beyond);
      PlainMatches(p, s);
      assert '*' !in p && !Decides(p, s, beyond, Matches(p, s));
    }
  }

  // ----- the path separator -----

  /** A pattern that matches a string with a separator at its end, but is refused there. */
  function Wall(n: nat): (p: string)
    ensures |p| == n + 2 && p[n] == '#' && p[n + 1] == '*' && forall j :: 0 <= j < n ==> p[j] == '?'
  {
    Questions(n) + ("#" + "*")
  }

  lemma {:induction false} WallMatches(s: string, n: nat)
    requires |s| == n + 1
    ensures PathMatches(Wall(n), s)
  {
    QuestionsThen("#" + "*", s, n);
    var t := s[n..];
    assert ("#" + "*")[1..] == "*" && t[1..] == "" && "*"[1..] == "";
    assert PathMatches("*", "") && PathMatches("#" + "*", "");
  }

  lemma {:induction false} WallRun(s: string, n: nat, beyond: char, m: nat)
    requires |s| == n + 1 && s[n] == '/' && m <= n
    ensures Run(Wall(n), s, START, beyond, m) == Go(Cursor(m, m, 0, 0))
  {
    if m > 0 {
      WallRun(s, n, beyond, m - 1);
    }
  }

  lemma {:induction false} LastSlashIsTrapped(s: string, n: nat, beyond: char)
    requires |s| == n + 1 && s[n] == '/'
    ensures PathMatches(Wall(n), s) && !Decides(Wall(n), s, beyond, true)
  {
    var p := Wall(n);
    WallMatches(s, n);
    WallRun(s, n, beyond, n);
    assert Run(p, s, START, beyond, n + 1) == Go(Cursor(n + 1, n, n, n + 1));
    assert Run(p, s, START, beyond, n + 2) == Go(Cursor(n + 2, n, n + 1, n + 1));
    assert Run(p, s, START, beyond, n + 3) == Answer(false);
    if Decides(p, s, beyond, true) {
      OneAnswer(p, s, beyond, true, false);
    }
  }

  /** A pattern that would match only if `*` ran over the separator at k. */
  function Leap(s: string, k: nat): (p: string)
    requires k < |s|
    ensures |p| == |s| && p[k] == '*' && forall j :: 0 <= j < |p| && j != k ==> p[j] == '?'
  {
    Questions(k) + ("*" + Questions(|s| - k - 1))
  }

  lemma {:induction false} LeapDoesNotMatch(s: string, k: nat)
    requires k < |s| && s[k] == '/'
    ensures !PathMatches(Leap(s, k), s)
  {
    var q := "*" + Questions(|s| - k - 1);
    QuestionsThen(q, s, k);
    assert q[1..] == Questions(|s| - k - 1);
    QuestionsMatch(|s| - k - 1, s[k..]);
  }

  /** To the end of the pattern, back to the `*`, and to the end of both. */
  function LeapAt(s: string, k: nat, m: nat): Cursor
    requires k < |s|
  {
    if m <= k then Cursor(m, m, 0, 0)
    else if m <= |s| then Cursor(m, m - 1, k, k + 1)
    else if m == |s| + 1 then Cursor(k, k + 1, k, k + 1)
    else Cursor(m - |s| - 1 + k, m - |s| - 1 + k, k, k + 2)
  }

  lemma LeapTurn(s: string, k: nat, beyond: char, m: nat)
    requires k < |s| - 1 && s[k] == '/' && s[|s| - 1] != '/' && m <= 2 * |s| - k
    requires forall j :: 0 <= j < |s| ==> !IsWild(s[j])
    ensures InRange(Leap(s, k), s, LeapAt(s, k, m))
    ensures Turn(Leap(s, k), s, LeapAt(s, k, m), beyond) == Go(LeapAt(s, k, m + 1))
  {
    var p := Leap(s, k);
    assert IsWild(p[k]);
    hide Leap;
  }

  lemma {:induction false} LeapRun(s: string, k: nat, beyond: char, m: nat)
    requires k < |s| - 1 && s[k] == '/' && s[|s| - 1] != '/' && m <= 2 * |s| - k + 1
    requires forall j :: 0 <= j < |s| ==> !IsWild(s[j])
    ensures Run(Leap(s, k), s, START, beyond, m) == Go(LeapAt(s, k, m))
  {
    hide Leap, Turn, IsWild;
    if m > 0 {
      LeapRun(s, k, beyond, m - 1);
      LeapTurn(s, k, beyond, m - 1);
    }
  }

  lemma {:induction false} InnerSlashIsLeapt(s: string, k: nat, beyond: char)
    requires k < |s| - 1 && s[k] == '/' && s[|s| - 1] != '/'
    requires forall j :: 0 <= j < |s| ==> !IsWild(s[j])
    ensures !PathMatches(Leap(s, k), s) && !Decides(Leap(s, k), s, beyond, false)
  {
    var p := Leap(s, k);
    LeapDoesNotMatch(s, k);
    var m := 2 * |s| - k + 1;
    LeapRun(s, k, beyond, m);
    assert Run(p, s, START, beyond, m + 1) == Answer(true);
    if Decides(p, s, beyond, false) {
      OneAnswer(p, s, beyond, true, false);
    }
  }

  /** `*?` matches with its `*` on a separator, and does not where it could end before one. */
  lemma StarMisjudged(beyond: char)
    ensures Decides("*?", "/x", beyond, true) && !PathMatches("*?", "/x")
    ensures Decides("*?", "x/", beyond, false) && PathMatches("*?", "x/")
  {
    assert Leap("/x", 0) == "*?";
    InnerSlashIsLeapt("/x", 0, beyond);
    AnswersMatch("*?", "/x", beyond);
    var p, s := "*?", "x/";
    assert Run(p, s, START, beyond, 1) == Go(Cursor(1, 0, 0, 1));
    assert Run(p, s, START, beyond, 2) == Go(Cursor(2, 1, 0, 1));
    assert Run(p, s, START, beyond, 3) == Answer(false);
    assert p[1..] == "?" && s[1..] == "/" && "?"[1..] == "" && "/"[1..] == "";
    assert PathMatches("?", "/") && PathMatches(p, "/");
  }

  /** Of all patterns: exactly the strings without `#`, `*` and `/` are answered rightly
      for every one. The test for the separator looks at the character that differs,
      which need not be the one that `*` is about to run over. */
  lemma {:induction false} RightForAllPatterns(s: string, beyond: char)
    ensures
      (forall p: string :: Decides(p, s, beyond, PathMatches(p, s)))
      <==> '#' !in s && '*' !in s && '/' !in s
  {
    hide PathMatches, Decides, Trap, Wall, Leap;
    if k: nat :| k < |s| && IsWild(s[k]) {
      WildIsTrapped(s, k, beyond);
      assert !Decides(Trap(s, k), s, beyond, PathMatches(Trap(s, k), s));
    } else if '/' !in s {
      forall p: string
        ensures Decides(p, s, beyond, PathMatches(p, s))
      {
        PlainMatches(p, s);
        AnswersMatch(p, s, beyond);
      }
    } else if s[|s| - 1] == '/' {
      var n := |s| - 1;
      LastSlashIsTrapped(s, n, beyond);
      assert !Decides(Wall(n), s, beyond, PathMatches(Wall(n), s));
    } else {
      var k: nat :| k < |s| && s[k] == '/';
      InnerSlashIsLeapt(s, k, beyond);
      assert !Decides(Leap(s, k), s, beyond, PathMatches(Leap(s, k), s));
    }
  }

  // ----- exactly when the loop ends -----

  /** All `#` of the string stand at its start. */
  predicate HashesLead(s: string) {
    forall k :: 0 < k < |s| && s[k] == '#' ==> s[k - 1] == '#'
  }

  lemma {:induction false} NoHashAfter(s: string, j: nat, k: nat)
    requires HashesLead(s) && j <= k < |s| && s[j] != '#'
    ensures s[k] != '#'
    decreases k - j
  {
    if j < k {
      NoHashAfter(s, j, k - 1);
    }
  }

  /** Once a wildcard is passed, no `#` of the string is ahead of any retry. */
  ghost predicate NoHashAhead(p: string, s: string, c: Cursor) {
    && InRange(p, s, c)
    && (c.nj > 0 ==>
          && p[c.ni] == '#' && c.ni <= c.i && c.nj - 1 <= c.j
          && (c.i == c.ni ==> c.j == c.nj)
          && forall k :: c.nj - 1 <= k < |s| ==> s[k] != '#')
  }

  lemma TurnEndsSooner(p: string, s: string, c: Cursor, beyond: char)
    requires NoHashAhead(p, s, c) && '*' !in p && HashesLead(s) && Turn(p, s, c, beyond).Go?
    ensures Closer(p, s, Turn(p, s, c, beyond).c, c) && NoHashAhead(p, s, Turn(p, s, c, beyond).c)
    ensures 0 <= WildsLeft(p, c) && 0 <= RetriesLeft(s, c) && 0 <= PatternLeft(p, c)
  {
    if c.j < |s| && s[c.j] != '#' {
      forall k | c.j <= k < |s|
        ensures s[k] != '#'
      {
        NoHashAfter(s, c.j, k);
      }
    }
  }

  lemma {:induction false} EndsFrom(p: string, s: string, beyond: char, n: nat, c: Cursor)
    requires Run(p, s, START, beyond, n) == Go(c)
    requires NoHashAhead(p, s, c) && '*' !in p && HashesLead(s)
    ensures Decides(p, s, beyond, true) || Decides(p, s, beyond, false)
    decreases WildsLeft(p, c), RetriesLeft(s, c), PatternLeft(p, c)
  {
    hide HashesLead, Turn;
    assert InRange(p, s, c);
    assert Run(p, s, START, beyond, n + 1) == Turn(p, s, c, beyond);
    if Turn(p, s, c, beyond).Go? {
      TurnEndsSooner(p, s, c, beyond);
      EndsFrom(p, s, beyond, n + 1, Turn(p, s, c, beyond).c);
    }
  }

  /** A letter that is none of two characters. */
  function Other(a: char, b: char): (c: char)
    ensures c != a && c != b && c != '?' && !IsWild(c)
  {
    if a != 'x' && b != 'x' then 'x' else if a != 'y' && b != 'y' then 'y' else 'z'
  }

  /** A pattern that goes back to the `#` at k for ever. */
  function Snare(s: string, k: nat): (p: string)
    requires 0 < k < |s|
    ensures |p| == k + 1 && p[k - 1] == '#' && forall j :: 0 <= j < k - 1 ==> p[j] == '?'
    ensures p[k] != s[k - 1] && (k + 1 < |s| ==> p[k] != s[k + 1]) && p[k] != '?' && !IsWild(p[k])
  {
    Questions(k - 1) + "#" + [Other(s[k - 1], if k + 1 < |s| then s[k + 1] else s[k])]
  }

  lemma {:induction false} SnareRun(s: string, k: nat, beyond: char, n: nat)
    requires 0 < k < |s| && s[k] == '#' && s[k - 1] != '#'
    ensures
      var o := Run(Snare(s, k), s, START, beyond, n);
      o.Go? && o.c in if n < k then {Cursor(n, n, 0, 0)}
                      else {Cursor(k, k - 1, k - 1, k), Cursor(k - 1, k, k - 1, k), Cursor(k, k + 1, k - 1, k)}
  {
    if n > 0 {
      SnareRun(s, k, beyond, n - 1);
      hide Snare;
    }
  }

  /** The loop ends for every pattern without `*` exactly on the strings in which no
      `#` stands behind another character. */
  lemma EndsForEveryPattern(s: string, beyond: char)
    ensures
      (forall p: string | '*' !in p :: Decides(p, s, beyond, true) || Decides(p, s, beyond, false))
      <==> HashesLead(s)
  {
    if HashesLead(s) {
      hide HashesLead;
      forall p: string | '*' !in p
        ensures Decides(p, s, beyond, true) || Decides(p, s, beyond, false)
      {
        EndsFrom(p, s, beyond, 0, START);
      }
    } else {
      hide Run, Turn;
      var k: nat :| 0 < k < |s| && s[k] == '#' && s[k - 1] != '#';
      var p := Snare(s, k);
      forall n: nat
        ensures Run(p, s, START, beyond, n).Go?
      {
        SnareRun(s, k, beyond, n);
      }
      assert '*' !in p && !Decides(p, s, beyond, true) && !Decides(p, s, beyond, false);
    }
  }
}
