/** ini.c: the parser at work in its line buffer, where it writes NULs over blanks
    and separators. */
module IniParser {
  import opened IniLines

  /** The C string at `at` in the buffer is t. */
  ghost predicate At(b: seq<char>, at: nat, t: string) {
    && at + |t| < |b| && b[at + |t|] == '\0'
    && forall k :: at <= k < at + |t| ==> b[k] != '\0' && b[k] == t[k - at]
  }

  ghost predicate Untouched(was: seq<char>, b: seq<char>, from: nat, to: nat) {
    |was| == |b| && forall k :: 0 <= k < |b| && !(from <= k < to) ==> b[k] == was[k]
  }

  lemma AtChar(b: seq<char>, at: nat, t: string, k: nat)
    requires At(b, at, t) && k <= |t|
    ensures at + |t| < |b| && b[at + k] == (if k < |t| then t[k] else '\0')
    ensures k < |t| ==> t[k] != '\0'
  {
  }

  lemma AtSuffix(b: seq<char>, at: nat, t: string, k: nat)
    requires At(b, at, t) && k <= |t|
    ensures At(b, at + k, t[k..])
  {
  }

  /** A string apart from the changed part is still there. */
  lemma AtKept(was: seq<char>, b: seq<char>, at: nat, t: string, from: nat, to: nat)
    requires At(was, at, t) && Untouched(was, b, from, to)
    requires at + |t| < from || to <= at
    ensures At(b, at, t)
  {
  }

  // ----- the string routines -----

  method StrLen(b: array<char>, s: nat, ghost t: string) returns (n: nat)
    requires At(b[..], s, t)
    ensures n == |t|
  {
    n := 0;
    while b[s + n] != '\0'
      invariant n <= |t|
      decreases |t| - n
    {
      n := n + 1;
    }
  }

  /** The C string as a value, which is how the handler gets it. */
  method CString(b: array<char>, s: nat, ghost t: string) returns (r: string)
    requires At(b[..], s, t)
    ensures r == t
  {
    var n := StrLen(b, s, t);
    r := b[s..s + n];
  }

  method RStrip(b: array<char>, s: nat, ghost t: string)
    requires At(b[..], s, t)
    modifies b
    ensures At(b[..], s, RStripped(t)) && Untouched(old(b[..]), b[..], s, s + |t|)
  {
    var n := StrLen(b, s, t);
    var p := s + n;
    ghost var u := t;
    while p > s && IsSpace(b[p - 1])
      invariant p == s + |u| && |u| <= |t| && At(b[..], s, u) && Untouched(old(b[..]), b[..], s, s + |t|)
      invariant RStripped(u) == RStripped(t)
      decreases p
    {
      p := p - 1;
      b[p] := '\0';
      u := u[..|u| - 1];
    }
  }

  method LSkip(b: array<char>, s: nat, ghost t: string) returns (p: nat)
    requires At(b[..], s, t)
    ensures At(b[..], p, LSkipped(t)) && p + |LSkipped(t)| == s + |t|
  {
    p := s;
    ghost var u := t;
    while b[p] != '\0' && IsSpace(b[p])
      invariant p + |u| == s + |t| && At(b[..], p, u) && LSkipped(u) == LSkipped(t)
      decreases |u|
    {
      p := p + 1;
      u := u[1..];
    }
  }

  method FindCharsOrComment(b: array<char>, s: nat, stops: string, ghost t: string) returns (p: nat)
    requires At(b[..], s, t)
    ensures p == s + FindIn(t, stops, false)
  {
    p := s;
    var wasSpace := false;
    ghost var u := t;
    while b[p] != '\0' && b[p] !in stops && !(wasSpace && b[p] == ';')
      invariant p + |u| == s + |t| && At(b[..], p, u)
      invariant p + FindIn(u, stops, wasSpace) == s + FindIn(t, stops, false)
      decreases |u|
    {
      wasSpace := IsSpace(b[p]);
      p := p + 1;
      u := u[1..];
    }
  }

  /** Writing a NUL over a character cuts the string in two. */
  method CutInTwo(b: array<char>, s: nat, e: nat, ghost t: string)
    requires At(b[..], s, t) && s <= e < s + |t|
    modifies b
    ensures At(b[..], s, t[..e - s]) && At(b[..], e + 1, t[e - s + 1..]) && Untouched(old(b[..]), b[..], e, e + 1)
  {
    b[e] := '\0';
  }

  // ----- one line -----

  method ReadSection(line: array<char>, start: nat, st: State, ghost body: string) returns (r: State)
    requires At(line[..], start, body) && body != ""
    modifies line
    ensures r == SectionLine(st, body)
  {
    hide At, Untouched, FindIn, Cut, Fail;
    AtSuffix(line[..], start, body, 1);
    var end := FindCharsOrComment(line, start + 1, "]", body[1..]);
    AtChar(line[..], start, body, end - start);
    if line[end] == ']' {
      CutInTwo(line, start + 1, end, body[1..]);
      assert body[1..][..end - start - 1] == body[1..end - start];
      var name := CString(line, start + 1, body[1..end - start]);
      r := st.(section := Cut(name, MAX_SECTION), prevName := "");
    } else {
      r := Fail(st);
    }
  }

  /** The name in front of a separator, the rest of the line left alone. */
  method ReadName(line: array<char>, start: nat, ghost n: string, ghost at: nat, ghost rest: string)
    requires At(line[..], start, n) && At(line[..], at, rest) && start + |n| < at
    modifies line
    ensures At(line[..], start, RStripped(n)) && At(line[..], at, rest)
  {
    hide At, RStripped;
    ghost var was := line[..];
    RStrip(line, start, n);
    AtKept(was, line[..], at, rest, start, start + |n|);
  }

  /** The value behind a separator: up to an inline comment, without blanks around it. */
  method ReadValue(line: array<char>, at: nat, ghost v: string, ghost start: nat, ghost name: string)
    returns (value: nat)
    requires At(line[..], at, v) && At(line[..], start, name) && start + |name| < at
    modifies line
    ensures At(line[..], value, ValueOf(v)) && At(line[..], start, name)
  {
    hide At, FindIn, LSkipped, RStripped;
    ghost var was := line[..];
    var end := FindCharsOrComment(line, at, "", v);
    ghost var kept := v[..end - at];
    AtChar(line[..], at, v, end - at);
    if line[end] != '\0' {
      CutInTwo(line, at, end, v);
    } else {
      assert kept == v;
    }
    value := LSkip(line, at, kept);
    RStrip(line, value, LSkipped(kept));
    AtKept(was, line[..], start, name, at, line.Length);
  }

  method ReadPair(line: array<char>, start: nat, st: State, accepts: Handler, ghost body: string)
    returns (r: State)
    requires At(line[..], start, body)
    modifies line
    ensures r == PairLine(st, body, accepts)
  {
    hide At, Untouched, FindIn, RStripped, ValueOf, Cut, Fail, Report;
    var end := FindCharsOrComment(line, start, "=", body);
    ghost var e := end - start;
    AtChar(line[..], start, body, e);
    if line[end] == '=' {
      ghost var rest := body[e + 1..];
      CutInTwo(line, start, end, body);
      ReadName(line, start, body[..e], end + 1, rest);
      var value := ReadValue(line, end + 1, rest, start, RStripped(body[..e]));
      var name := CString(line, start, RStripped(body[..e]));
      var v := CString(line, value, ValueOf(rest));
      r := Report(st.(prevName := Cut(name, MAX_NAME)), Call(st.section, name, v), accepts);
    } else {
      r := Fail(st);
    }
  }

  method ParseLine(line: array<char>, st: State, accepts: Handler, ghost l: string) returns (r: State)
    requires At(line[..], 0, l) && line.Length >= 3
    modifies line
    ensures r == LineStep(st, l, accepts)
  {
    hide At, Untouched, RStripped, LSkipped, SectionLine, PairLine, Report;
    r := st.(lineno := st.lineno + 1);
    var start := 0;
    BomAt(line[..], l);
    if r.lineno == 1 && line[0] == '\U{00EF}' && line[1] == '\U{00BB}' && line[2] == '\U{00BF}' {
      start := 3;
    }
    ghost var t := l[start..];
    AtSuffix(line[..], 0, l, start);
    RStrip(line, start, t);
    start := LSkip(line, start, RStripped(t));
    ghost var body := LSkipped(RStripped(t));
    AtChar(line[..], start, body, 0);
    if line[start] == '\0' || line[start] == ';' {
    } else if r.prevName != "" && start > 0 {
      var v := CString(line, start, body);
      r := Report(r, Call(r.section, r.prevName, v), accepts);
    } else if line[start] == '[' {
      r := ReadSection(line, start, r, body);
    } else {
      r := ReadPair(line, start, r, accepts, body);
    }
  }

  lemma BomAt(line: seq<char>, l: string)
    requires At(line, 0, l) && |line| >= 3
    ensures HasBom(l) <==> line[0] == '\U{00EF}' && line[1] == '\U{00BB}' && line[2] == '\U{00BF}'
  {
    if |l| < 3 {
      AtChar(line, 0, l, |l|);
    } else {
      AtChar(line, 0, l, 0);
      AtChar(line, 0, l, 1);
      AtChar(line, 0, l, 2);
    }
  }

  // ----- the stream -----

  /** ini_reader_string: one line, or as much of it as fits, with a NUL behind it. */
  method ReadLine(line: array<char>, text: string, at: nat) returns (ok: bool, next: nat)
    requires line.Length == 200 && at <= |text|
    modifies line
    ensures ok <==> at < |text|
    ensures ok ==> next == at + LineLen(text[at..], 199)
    ensures ok ==> At(line[..], 0, UpToNul(text[at..next]))
    ensures !ok ==> next == at
  {
    next := at;
    if at == |text| {
      return false, at;
    }
    var num := MAX_LINE;
    var done := false;
    while num > 1 && next < |text| && !done
      invariant at <= next <= |text| && next - at <= MAX_LINE - 1
      invariant !done ==> num == MAX_LINE - (next - at)
      invariant forall k :: at <= k < next ==> line[k - at] == text[k]
      invariant !done ==>
        next - at + LineLen(text[next..], num - 1) == LineLen(text[at..], MAX_LINE - 1)
      invariant done ==> next - at == LineLen(text[at..], MAX_LINE - 1)
      decreases |text| - next, !done
    {
      var c := text[next];
      line[next - at] := c;
      assert text[next..][1..] == text[next + 1..];
      next := next + 1;
      if c == '\n' {
        done := true;
      } else {
        num := num - 1;
      }
    }
    line[next - at] := '\0';
    ok := true;
    Stored(line[..], text[at..next]);
  }

  lemma {:induction false} Stored(b: seq<char>, t: string)
    requires |t| < |b| && b[|t|] == '\0' && forall k :: 0 <= k < |t| ==> b[k] == t[k]
    ensures At(b, 0, UpToNul(t))
  {
    UpToNulIs(t);
  }

  /** ini_parse_string: the calls made, and the line of the first error or 0. */
  method ParseString(text: string, accepts: Handler) returns (error: nat, calls: seq<Call>)
    ensures
      var end := Parse(State("", "", 0, 0, []), text, accepts);
      error == end.error && calls == end.calls
  {
    hide LineStep;
    var line := new char[MAX_LINE];
    var st := INIT;
    var at := 0;
    var more := true;
    assert text[0..] == text;
    while more
      invariant at <= |text| && line.Length == MAX_LINE && fresh(line)
      invariant Parse(st, text[at..], accepts) == Parse(INIT, text, accepts)
      invariant !more ==> at == |text|
      decreases |text| - at, more
    {
      var next;
      more, next := ReadLine(line, text, at);
      if more {
        st := ParseLine(line, st, accepts, UpToNul(text[at..next]));
        assert text[at..][..next - at] == text[at..next] && text[at..][next - at..] == text[next..];
        at := next;
      }
    }
    return st.error, st.calls;
  }
}
