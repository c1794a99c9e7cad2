/** What is printed as INI text is read back: item by item exactly when the item is
    writable, and whole documents of writable items. */
module IniRoundTrip {
  import opened IniLines

  datatype Item = Section(name: string) | Pair(name: string, value: string)

  function PrintItem(it: Item): string {
    match it
    case Section(name) => "\n[" + name + "]\n"
    case Pair(name, value) => name + "=" + value + "\n"
  }

  function Print(items: seq<Item>): string {
    if items == [] then "" else PrintItem(items[0]) + Print(items[1..])
  }

  /** The calls a document stands for, from the given section on. */
  function Expected(items: seq<Item>, section: string): seq<Call> {
    if items == [] then []
    else
      match items[0]
      case Section(name) => Expected(items[1..], name)
      case Pair(name, value) => [Call(section, name, value)] + Expected(items[1..], section)
  }

  // ----- the lexical rules -----

  predicate Trimmed(t: string) {
    t == "" || (!IsSpace(t[0]) && !IsSpace(t[|t| - 1]))
  }

  predicate NoComment(t: string) {
    forall k :: 0 < k < |t| && t[k] == ';' ==> !IsSpace(t[k - 1])
  }

  /** Nothing in front that makes the line a comment, a section or a continuation. */
  predicate StartsPlain(t: string) {
    t == "" || (!IsSpace(t[0]) && t[0] != ';' && t[0] != '[')
  }

  predicate WritablePair(name: string, value: string) {
    && Trimmed(name) && StartsPlain(name) && NoComment(name) && '=' !in name && '\n' !in name
    && Trimmed(value) && NoComment(value) && '\n' !in value
    && |name| + 1 + |value| < 200
  }

  predicate WritableSection(name: string) {
    |name| < 50 && ']' !in name && NoComment(name) && '\n' !in name
  }

  predicate Writable(it: Item) {
    && '\0' !in it.name && (it.Pair? ==> '\0' !in it.value)
    && match it
       case Section(name) => WritableSection(name)
       case Pair(name, value) => WritablePair(name, value)
  }

  // ----- the string routines, from outside -----

  lemma {:induction false} RStrippedIs(t: string)
    ensures
      var r := RStripped(t);
      && r == t[..|r|] && (r != "" ==> !IsSpace(r[|r| - 1]))
      && forall k :: |r| <= k < |t| ==> IsSpace(t[k])
    decreases |t|
  {
    if t != "" && IsSpace(t[|t| - 1]) {
      RStrippedIs(t[..|t| - 1]);
    }
  }

  lemma {:induction false} LSkippedIs(t: string)
    ensures
      var r := LSkipped(t);
      && r == t[|t| - |r|..] && (r != "" ==> !IsSpace(r[0]))
      && forall k :: 0 <= k < |t| - |r| ==> IsSpace(t[k])
    decreases |t|
  {
    if t != "" && IsSpace(t[0]) {
      LSkippedIs(t[1..]);
    }
  }

  lemma {:induction false} FindInIs(t: string, stops: string, wasSpace: bool)
    ensures
      var e := FindIn(t, stops, wasSpace);
      && (e < |t| ==> t[e] in stops || t[e] == ';')
      && (forall k :: 0 <= k < e ==> t[k] !in stops)
      && NoComment(t[..e]) && (e > 0 && wasSpace ==> t[0] != ';')
    decreases |t|
  {
    if t == "" || t[0] in stops || (wasSpace && t[0] == ';') {
    } else {
      FindInIs(t[1..], stops, IsSpace(t[0]));
      var e := FindIn(t, stops, wasSpace);
      assert t[1..][..e - 1] == t[..e][1..];
      forall k | 0 < k < e && t[..e][k] == ';'
        ensures !IsSpace(t[..e][k - 1])
      {
        assert t[1..][k - 1] == t[k];
        if k > 1 {
          assert t[1..][..e - 1][k - 1] == ';';
        }
      }
    }
  }

  lemma {:induction false} FindsAt(t: string, stops: string, wasSpace: bool, e: nat)
    requires e <= |t| && (e < |t| ==> t[e] in stops)
    requires forall k :: 0 <= k < e ==> t[k] !in stops
    requires NoComment(t[..e]) && (e > 0 && wasSpace ==> t[0] != ';')
    ensures FindIn(t, stops, wasSpace) == e
    decreases |t|
  {
    if e > 0 {
      var u := t[1..][..e - 1];
      assert u == t[..e][1..];
      forall k | 0 < k < |u| && u[k] == ';'
        ensures !IsSpace(u[k - 1])
      {
        assert t[..e][k + 1] == ';';
      }
      if e > 1 && t[1] == ';' {
        assert t[..e][1] == ';';
      }
      FindsAt(t[1..], stops, IsSpace(t[0]), e - 1);
    }
  }

  /** A value is read as itself exactly if it is trimmed and holds no comment. */
  lemma ValueOfSelf(v: string)
    ensures ValueOf(v) == v <==> Trimmed(v) && NoComment(v)
    ensures |ValueOf(v)| <= |v|
  {
    assert v[..|v|] == v;
    if Trimmed(v) && NoComment(v) {
      FindsAt(v, "", false, |v|);
    }
    if ValueOf(v) == v {
      assert FindIn(v, "", false) == |v|;
      FindInIs(v, "", false);
      LSkippedIs(v);
      RStrippedIs(LSkipped(v));
    }
  }

  lemma {:induction false} NoNulInside(t: string)
    requires '\0' !in t
    ensures UpToNul(t) == t
    decreases |t|
  {
    if t != "" {
      NoNulInside(t[1..]);
    }
  }

  // ----- the reader -----

  lemma {:induction false} LineEnds(text: string, room: nat, n: nat)
    requires n <= |text| && n <= room
    requires forall k :: 0 <= k < n ==> text[k] != '\n'
    requires n < |text| && n < room ==> text[n] == '\n'
    ensures LineLen(text, room) == if n < |text| && n < room then n + 1 else n
    decreases n
  {
    if n > 0 {
      LineEnds(text[1..], room - 1, n - 1);
    }
  }

  lemma {:induction false} LineLenIs(text: string, room: nat)
    ensures
      var n := LineLen(text, room);
      && (forall k :: 0 <= k < n - 1 ==> text[k] != '\n')
      && (n < |text| && n < room ==> n > 0 && text[n - 1] == '\n')
    decreases |text|
  {
    if text == "" || room == 0 || text[0] == '\n' {
    } else {
      LineLenIs(text[1..], room - 1);
    }
  }

  lemma {:induction false} LineLenAppend(a: string, b: string, room: nat)
    requires a != "" && a[|a| - 1] == '\n'
    ensures LineLen(a + b, room) == LineLen(a, room)
    decreases |a|
  {
    if room > 0 && a[0] != '\n' {
      assert (a + b)[1..] == a[1..] + b;
      LineLenAppend(a[1..], b, room - 1);
    }
  }

  /** A text of whole lines is read before what follows it. */
  lemma {:induction false} ParseAppend(st: State, a: string, b: string, accepts: Handler)
    requires a != "" ==> a[|a| - 1] == '\n'
    ensures Parse(st, a + b, accepts) == Parse(Parse(st, a, accepts), b, accepts)
    decreases |a|
  {
    hide LineStep, LineLen, UpToNul;
    if a == "" {
      assert a + b == b;
    } else {
      LineLenAppend(a, b, MAX_LINE - 1);
      var n := LineLen(a, MAX_LINE - 1);
      assert n > 0 by {
        assert LineLen(a, MAX_LINE - 1) > 0;
      }
      assert (a + b)[..n] == a[..n] && (a + b)[n..] == a[n..] + b;
      ParseAppend(LineStep(st, UpToNul(a[..n]), accepts), a[n..], b, accepts);
    }
  }

  // ----- what every call looks like -----

  /** True of every name the parser remembers or reports. */
  predicate NameLike(n: string) {
    StartsPlain(n) && '\n' !in n
  }

  predicate CallLike(c: Call) {
    NameLike(c.name) && '\n' !in c.value
  }

  /** What has happened between two states. */
  ghost predicate Later(st: State, r: State) {
    && st.calls <= r.calls && NameLike(r.prevName)
    && (st.error != 0 ==> r.error == st.error)
    && (forall k :: |st.calls| <= k < |r.calls| ==> CallLike(r.calls[k]))
    && (r.section == st.section || (|r.section| < MAX_SECTION && '\n' !in r.section))
  }

  lemma PiecesAreNameLike(body: string, e: nat)
    requires '\n' !in body && StartsPlain(body) && e <= |body|
    ensures NameLike(RStripped(body[..e])) && NameLike(Cut(RStripped(body[..e]), MAX_NAME))
  {
    RStrippedIs(body[..e]);
  }

  lemma ValueHasNoNewline(v: string)
    requires '\n' !in v
    ensures '\n' !in ValueOf(v)
  {
    var w := v[..FindIn(v, "", false)];
    LSkippedIs(w);
    RStrippedIs(LSkipped(w));
  }

  lemma ReportLater(st: State, prevName: string, c: Call, accepts: Handler)
    requires NameLike(prevName) && CallLike(c)
    ensures Later(st, Report(st.(prevName := prevName), c, accepts))
  {
    hide NameLike, CallLike;
  }

  lemma PairLineLater(st: State, body: string, accepts: Handler)
    requires NameLike(st.prevName) && '\n' !in body && StartsPlain(body)
    ensures Later(st, PairLine(st, body, accepts))
  {
    hide NameLike, RStripped, ValueOf, FindIn, StartsPlain;
    var e := FindIn(body, "=", false);
    if e < |body| && body[e] == '=' {
      PiecesAreNameLike(body, e);
      ValueHasNoNewline(body[e + 1..]);
      var name := RStripped(body[..e]);
      var c := Call(st.section, name, ValueOf(body[e + 1..]));
      assert CallLike(c);
      hide Report, Later, CallLike, Cut;
      ReportLater(st, Cut(name, MAX_NAME), c, accepts);
    }
  }

  lemma SectionLineLater(st: State, body: string)
    requires NameLike(st.prevName) && '\n' !in body && body != ""
    ensures Later(st, SectionLine(st, body))
  {
    hide FindIn;
    assert NameLike("");
  }

  lemma BodyLineLater(st: State, body: string, indented: bool, accepts: Handler)
    requires NameLike(st.prevName) && '\n' !in body && (body != "" ==> !IsSpace(body[0]))
    ensures Later(st, BodyLine(st, body, indented, accepts))
  {
    hide NameLike, PairLine, SectionLine, IsSpace;
    if body == "" || body[0] == ';' {
    } else if st.prevName != "" && indented {
      ReportLater(st, st.prevName, Call(st.section, st.prevName, body), accepts);
    } else if body[0] == '[' {
      SectionLineLater(st, body);
    } else {
      PairLineLater(st, body, accepts);
    }
  }

  lemma {:induction false} StrippedLine(l: string)
    requires forall k :: 0 <= k < |l| - 1 ==> l[k] != '\n'
    ensures '\n' !in LSkipped(RStripped(l))
    ensures LSkipped(RStripped(l)) != "" ==> !IsSpace(LSkipped(RStripped(l))[0])
  {
    hide RStripped, LSkipped;
    var t := RStripped(l);
    RStrippedIs(l);
    LSkippedIs(t);
    forall k | 0 <= k < |t|
      ensures t[k] != '\n'
    {
      assert t[k] == l[k];
    }
  }

  lemma LineStepLater(st: State, l: string, accepts: Handler)
    requires NameLike(st.prevName) && forall k :: 0 <= k < |l| - 1 ==> l[k] != '\n'
    ensures Later(st, LineStep(st, l, accepts))
  {
    hide BodyLine, RStripped, LSkipped;
    var skip := if st.lineno == 0 && HasBom(l) then 3 else 0;
    var t := l[skip..];
    StrippedLine(t);
    var body := LSkipped(RStripped(t));
    BodyLineLater(st.(lineno := st.lineno + 1), body, skip > 0 || |body| < |RStripped(t)|, accepts);
  }

  lemma {:induction false} ParseLater(st: State, text: string, accepts: Handler)
    requires NameLike(st.prevName)
    ensures Later(st, Parse(st, text, accepts))
    decreases |text|
  {
    hide LineStep;
    if text != "" {
      var n := LineLen(text, MAX_LINE - 1);
      LineLenIs(text, MAX_LINE - 1);
      UpToNulIs(text[..n]);
      LineStepLater(st, UpToNul(text[..n]), accepts);
      ParseLater(LineStep(st, UpToNul(text[..n]), accepts), text[n..], accepts);
    }
  }

  // ----- one item -----

  /** Reading the item changes the section, or makes its one call, and is no error. */
  ghost predicate ReadsBack(st: State, it: Item, accepts: Handler) {
    var r := Parse(st, PrintItem(it), accepts);
    && r.error == 0
    && match it
       case Section(name) => r.section == name && r.calls == st.calls
       case Pair(name, value) =>
         r.section == st.section && r.calls == st.calls + [Call(st.section, name, value)]
  }

  /** A blank line does nothing. */
  lemma {:induction false} BlankLine(st: State, rest: string, accepts: Handler)
    ensures Parse(st, "\n" + rest, accepts) == Parse(st.(lineno := st.lineno + 1), rest, accepts)
  {
    var text := "\n" + rest;
    assert text[..1] == "\n" && text[1..] == rest;
    assert LineLen(text, MAX_LINE - 1) == 1;
    NoNulInside("\n");
    assert LineStep(st, "\n", accepts) == st.(lineno := st.lineno + 1) by {
      assert "\n"[0..] == "\n" && "\n"[..0] == "";
      assert RStripped("\n") == "";
    }
  }

  lemma {:induction false} RStripKeepsFirst(l: string)
    requires l != "" && !IsSpace(l[0])
    ensures RStripped(l) != "" && RStripped(l)[0] == l[0]
  {
    hide RStripped;
    RStrippedIs(l);
    assert !IsSpace(l[0]);
  }

  /** A line of plain start, whole or cut off by the reader, is taken as a pair. */
  lemma {:induction false} PlainLine(st: State, l: string, accepts: Handler)
    requires l != "" && StartsPlain(l) && (st.lineno == 0 ==> !HasBom(l))
    ensures RStripped(l) != "" && StartsPlain(RStripped(l))
    ensures LineStep(st, l, accepts) == PairLine(st.(lineno := st.lineno + 1), RStripped(l), accepts)
  {
    hide RStripped, PairLine, SectionLine, Report, HasBom, IsSpace;
    RStripKeepsFirst(l);
    assert l[0..] == l;
    assert LSkipped(RStripped(l)) == RStripped(l);
  }

  lemma {:induction false} RStripEnd(t: string, end: string)
    requires t != "" && !IsSpace(t[|t| - 1]) && (end == "" || end == "\n")
    ensures RStripped(t + end) == t
  {
    if end == "\n" {
      assert (t + end)[..|t + end| - 1] == t;
      assert RStripped(t + end) == RStripped(t);
    } else {
      assert t + end == t;
    }
  }

  lemma PairLineOf(st: State, name: string, value: string, accepts: Handler)
    requires WritablePair(name, value)
    ensures
      PairLine(st, name + "=" + value, accepts)
      == Report(st.(prevName := Cut(name, MAX_NAME)), Call(st.section, name, value), accepts)
  {
    hide Report, Cut, FindIn, ValueOf;
    var t := name + "=" + value;
    assert t[..|name|] == name && t[|name| + 1..] == value;
    FindsAt(t, "=", false, |name|);
    assert RStripped(name) == name;
    ValueOfSelf(value);
  }

  lemma WrittenPairLine(st: State, name: string, value: string, end: string, accepts: Handler)
    requires WritablePair(name, value) && (end == "" || end == "\n")
    requires st.lineno == 0 ==> !HasBom(name)
    ensures
      LineStep(st, name + "=" + value + end, accepts)
      == Report(st.(lineno := st.lineno + 1, prevName := Cut(name, MAX_NAME)), Call(st.section, name, value), accepts)
  {
    hide Report, Cut, HasBom, PairLine, LineStep, RStripped, NoComment;
    var t := name + "=" + value;
    NoBomInPair(name, value + end);
    assert t + end == name + "=" + (value + end);
    PlainLine(st, t + end, accepts);
    RStripEnd(t, end);
    PairLineOf(st.(lineno := st.lineno + 1), name, value, accepts);
  }

  lemma NoBomInPair(name: string, rest: string)
    ensures HasBom(name + "=" + rest) <==> HasBom(name)
  {
    var t := name + "=" + rest;
    assert t[|name|] == '=';
    if |name| >= 3 {
      assert t[0] == name[0] && t[1] == name[1] && t[2] == name[2];
    }
  }

  // ----- a pair -----

  /** A writable pair makes its call and nothing else; a pair of the longest allowed
      length leaves its newline to a read of its own. */
  lemma WrittenPairIsRead(st: State, name: string, value: string, accepts: Handler)
    requires WritablePair(name, value) && '\0' !in name && '\0' !in value
    requires st.lineno == 0 ==> !HasBom(name)
    ensures
      var lines := if |name| + 1 + |value| == 199 then 2 else 1;
      var one := st.(lineno := st.lineno + 1, prevName := if |name| < 50 then name else name[..49]);
      Parse(st, PrintItem(Pair(name, value)), accepts)
      == Report(one, Call(st.section, name, value), accepts).(lineno := st.lineno + lines)
  {
    hide HasBom, LineStep, NoComment, Trimmed, StartsPlain, LineLen;
    var t := name + "=" + value;
    var text := t + "\n";
    LineEnds(text, MAX_LINE - 1, |t|);
    var n := LineLen(text, MAX_LINE - 1);
    NoNulInside(text[..n]);
    if n == |text| {
      assert text[..n] == text && text[n..] == "";
      WrittenPairLine(st, name, value, "\n", accepts);
    } else {
      assert text[..n] == t && t == t + "";
      assert text[n..] == "\n" + "";
      WrittenPairLine(st, name, value, "", accepts);
      BlankLine(LineStep(st, t, accepts), "", accepts);
    }
  }

  /** If the text in front of the first `=` is the name and the value behind it is
      the value, in as much of the line as the reader took, the pair is writable. */
  lemma SplitIsWritable(section: string, name: string, value: string, body: string)
    requires NameLike(name) && '\n' !in value && body != ""
    requires body <= name + "=" + value + "\n" && |body| < MAX_LINE && !IsSpace(body[|body| - 1])
    requires HasSeparator(body) && PairOf(section, body) == Call(section, name, value)
    ensures WritablePair(name, value)
  {
    hide FindIn, RStripped, ValueOf;
    var t := name + "=" + value;
    var e := FindIn(body, "=", false);
    FindInIs(body, "=", false);
    RStrippedIs(body[..e]);
    assert name == body[..|name|];
    var text := t + "\n";
    assert text[|name|] == '=' && text[|t|] == '\n';
    assert forall k :: 0 <= k < |body| ==> body[k] == text[k];
    assert |name| == e;
    ValueOfSelf(body[e + 1..]);
    assert |body| <= |t|;
    assert |body[e + 1..]| == |value|;
    assert body == text[..|t|] == t;
    assert body[e + 1..] == value;
    assert NoComment(name) by {
      forall k | 0 < k < |name| && name[k] == ';'
        ensures !IsSpace(name[k - 1])
      {
        assert body[..e][k] == ';';
      }
    }
  }

  /** The first call is no longer than what was there to read. */
  lemma {:induction false} FirstCallFits(st: State, text: string, accepts: Handler)
    requires st.prevName == ""
    ensures
      var r := Parse(st, text, accepts);
      st.calls <= r.calls
      && (st.calls < r.calls ==> |r.calls[|st.calls|].name| + 1 + |r.calls[|st.calls|].value| <= |text|)
    decreases |text|
  {
    hide LineStep, LineLen;
    if text != "" {
      var n := LineLen(text, MAX_LINE - 1);
      assert n > 0;
      var l := UpToNul(text[..n]);
      LineCallFits(st, l, accepts);
      var r1 := LineStep(st, l, accepts);
      if r1.calls == st.calls {
        FirstCallFits(r1, text[n..], accepts);
      } else {
        ParseKeeps(r1, text[n..], accepts);
      }
    }
  }

  lemma LineKeeps(st: State, l: string, accepts: Handler)
    ensures st.calls <= LineStep(st, l, accepts).calls
    ensures st.error != 0 ==> LineStep(st, l, accepts).error != 0
  {
    hide LSkipped, RStripped, FindIn, HasBom, ValueOf, Cut;
  }

  /** Calls and errors stay. */
  lemma {:induction false} ParseKeeps(st: State, text: string, accepts: Handler)
    ensures st.calls <= Parse(st, text, accepts).calls
    ensures st.error != 0 ==> Parse(st, text, accepts).error != 0
    decreases |text|
  {
    if text != "" {
      hide LineStep, LineLen, UpToNul;
      var n := LineLen(text, MAX_LINE - 1);
      assert n > 0;
      var l := UpToNul(text[..n]);
      LineKeeps(st, l, accepts);
      ParseKeeps(LineStep(st, l, accepts), text[n..], accepts);
    }
  }

  lemma LineCallFits(st: State, l: string, accepts: Handler)
    requires st.prevName == ""
    ensures
      var r := LineStep(st, l, accepts);
      || (r.calls == st.calls && r.prevName == "")
      || (|r.calls| == |st.calls| + 1 && st.calls <= r.calls
          && |r.calls[|st.calls|].name| + 1 + |r.calls[|st.calls|].value|
             <= |l| - (if st.lineno == 0 && HasBom(l) then 3 else 0))
  {
    hide LSkipped, RStripped, FindIn, HasBom, ValueOf;
    var skip := if st.lineno == 0 && HasBom(l) then 3 else 0;
    assert |l[skip..]| == |l| - skip by {
      assert HasBom(l) ==> |l| >= 3 by {
        BomIsThree(l);
      }
    }
    var body := LSkipped(RStripped(l[skip..]));
    var e := FindIn(body, "=", false);
    if e < |body| {
      ValueOfSelf(body[e + 1..]);
    }
  }

  lemma BomIsThree(l: string)
    ensures HasBom(l) ==> |l| >= 3
  {
  }

  /** A byte-order mark at the start of the text is lost, and with it the name. */
  lemma BomIsLost(st: State, name: string, value: string, accepts: Handler)
    requires st.lineno == 0 && st.prevName == "" && HasBom(name) && '\0' !in name && '\0' !in value
    ensures !ReadsBack(st, Pair(name, value), accepts)
  {
    hide LineStep, LineLen;
    var text := name + "=" + value + "\n";
    var n := LineLen(text, MAX_LINE - 1);
    var l := text[..n];
    NoNulInside(l);
    assert n >= 4 by {
      LineLenIs(text, MAX_LINE - 1);
      assert text[0] == name[0] && text[1] == name[1] && text[2] == name[2];
    }
    assert HasBom(l);
    LineCallFits(st, l, accepts);
    var r1 := LineStep(st, l, accepts);
    if r1.calls == st.calls {
      FirstCallFits(r1, text[n..], accepts);
    } else {
      ParseKeeps(r1, text[n..], accepts);
    }
  }

  lemma ReadPairIsWritable(st: State, name: string, value: string, accepts: Handler)
    requires NameLike(st.prevName) && '\0' !in name && '\0' !in value
    requires st.lineno == 0 ==> !HasBom(name)
    requires ReadsBack(st, Pair(name, value), accepts)
    ensures WritablePair(name, value)
  {
    hide LineStep, LineLen, Report, Cut, HasBom, FindIn, RStripped, ValueOf, WritablePair, PairOf, HasSeparator, Parse;
    var text := name + "=" + value + "\n";
    var n := LineLen(text, MAX_LINE - 1);
    var l := text[..n];
    ParseLater(st, text, accepts);
    assert CallLike(Parse(st, text, accepts).calls[|st.calls|]);
    NoNulInside(l);
    NoBomInPair(name, value + "\n");
    assert text == name + "=" + (value + "\n");
    if st.lineno == 0 {
      NoBomCut(text, n);
    }
    PlainLine(st, l, accepts);
    var body := RStripped(l);
    RStrippedIs(l);
    FirstCallIsHere(st, text, n, body, accepts);
    SplitIsWritable(st.section, name, value, body);
  }

  lemma NoBomCut(text: string, n: nat)
    requires n <= |text| && !HasBom(text)
    ensures !HasBom(text[..n])
  {
  }

  lemma PairLineCall(st: State, body: string, accepts: Handler)
    requires PairLine(st, body, accepts).error == 0 && st.lineno > 0
    ensures HasSeparator(body) && PairLine(st, body, accepts).calls == st.calls + [PairOf(st.section, body)]
  {
    hide HasSeparator, PairOf, Cut;
  }

  lemma {:induction false} ParseFirst(st: State, text: string, n: nat, accepts: Handler)
    requires text != "" && n == LineLen(text, MAX_LINE - 1)
    ensures Parse(st, text, accepts) == Parse(LineStep(st, UpToNul(text[..n]), accepts), text[n..], accepts)
  {
    hide LineStep, LineLen, UpToNul;
  }

  /** If the text is read without error and the first line is taken as a pair, the
      first call is that pair's. */
  lemma {:induction false} FirstCallIsHere(st: State, text: string, n: nat, body: string, accepts: Handler)
    requires text != "" && n == LineLen(text, MAX_LINE - 1)
    requires LineStep(st, UpToNul(text[..n]), accepts) == PairLine(st.(lineno := st.lineno + 1), body, accepts)
    requires Parse(st, text, accepts).error == 0
    ensures HasSeparator(body) && st.calls < Parse(st, text, accepts).calls
    ensures Parse(st, text, accepts).calls[|st.calls|] == PairOf(st.section, body)
  {
    hide LineStep, LineLen, HasSeparator, PairOf, UpToNul, PairLine, Parse;
    var r1 := PairLine(st.(lineno := st.lineno + 1), body, accepts);
    ParseFirst(st, text, n, accepts);
    ParseKeeps(r1, text[n..], accepts);
    PairLineCall(st.(lineno := st.lineno + 1), body, accepts);
    CallIsNext(st.calls, PairOf(st.section, body), r1.calls, Parse(r1, text[n..], accepts).calls);
  }

  lemma CallIsNext(before: seq<Call>, c: Call, next: seq<Call>, after: seq<Call>)
    requires next == before + [c] && next <= after
    ensures before < after && after[|before|] == c
  {
    assert next[|before|] == c;
  }

  // ----- a section -----

  /** The second of the two lines a section prints as. */
  lemma {:induction false} SectionText(st: State, name: string, accepts: Handler)
    ensures
      Parse(st, PrintItem(Section(name)), accepts)
      == Parse(st.(lineno := st.lineno + 1), "[" + name + "]\n", accepts)
  {
    hide Parse;
    assert "\n[" + name + "]\n" == "\n" + ("[" + name + "]\n");
    BlankLine(st, "[" + name + "]\n", accepts);
  }

  /** A line that opens with a bracket is taken as a section, whatever follows. */
  lemma {:induction false} BracketLine(st: State, l: string, accepts: Handler)
    requires l != "" && l[0] == '[' && st.lineno > 0
    ensures RStripped(l) != "" && RStripped(l)[0] == '['
    ensures LineStep(st, l, accepts) == SectionLine(st.(lineno := st.lineno + 1), RStripped(l))
  {
    RStripKeepsFirst(l);
    var t := RStripped(l);
    assert t[0] == '[';
    hide RStripped, SectionLine, Report, PairLine;
    assert l[0..] == l;
    assert LSkipped(t) == t;
  }

  /** A bracket line of one whole line. */
  lemma {:induction false} WholeBracketLine(st: State, name: string, accepts: Handler)
    requires st.lineno > 0 && |name| < MAX_SECTION && '\n' !in name && '\0' !in name
    ensures
      Parse(st, "[" + name + "]\n", accepts) == SectionLine(st.(lineno := st.lineno + 1), "[" + name + "]")
  {
    hide LineStep, SectionLine, RStripped, LineLen, UpToNul, Parse;
    var t := "[" + name + "]";
    var text := t + "\n";
    assert text == "[" + name + "]\n";
    LineEnds(text, MAX_LINE - 1, |t|);
    NoNulInside(text);
    assert text[..|text|] == text && text[|text|..] == "";
    ParseFirst(st, text, |text|, accepts);
    ParseNothing(SectionLine(st.(lineno := st.lineno + 1), t), accepts);
    BracketLine(st, text, accepts);
    RStripEnd(t, "\n");
  }

  lemma {:induction false} ParseNothing(st: State, accepts: Handler)
    ensures Parse(st, "", accepts) == st
  {
  }

  /** The bracket found is the closing one exactly if the name is in order. */
  lemma {:induction false} BracketFound(name: string)
    ensures FindIn(name + "]", "]", false) == |name| <==> ']' !in name && NoComment(name)
  {
    hide FindIn;
    var rest := name + "]";
    assert rest[..|name|] == name;
    FindInIs(rest, "]", false);
    if ']' !in name && NoComment(name) {
      FindsAt(rest, "]", false, |name|);
    }
  }

  lemma SectionLineOf(st: State, name: string)
    requires |name| < MAX_SECTION && st.error == 0 && st.lineno > 0
    ensures
      var r := SectionLine(st, "[" + name + "]");
      r.error == 0 && r.section == name <==> ']' !in name && NoComment(name)
    ensures
      ']' !in name && NoComment(name) ==>
        SectionLine(st, "[" + name + "]") == st.(section := name, prevName := "")
  {
    hide FindIn, NoComment;
    var body := "[" + name + "]";
    assert body[1..] == name + "]";
    BracketFound(name);
    var e := FindIn(name + "]", "]", false);
    assert |body[1..1 + e]| == e <= |name| || e == |name| + 1;
    if e == |name| {
      assert body[1..1 + e] == name;
    }
  }

  lemma {:induction false} SmallSectionStays(st: State, text: string, accepts: Handler)
    requires NameLike(st.prevName) && |st.section| < MAX_SECTION && '\n' !in st.section
    ensures
      var r := Parse(st, text, accepts);
      |r.section| < MAX_SECTION && '\n' !in r.section
  {
    ParseLater(st, text, accepts);
  }

  lemma {:induction false} ReadSectionIsShort(st: State, name: string, accepts: Handler)
    requires NameLike(st.prevName) && st.lineno > 0 && '\0' !in name
    requires
      var r := Parse(st, "[" + name + "]\n", accepts);
      r.error == 0 && r.section == name
    ensures |name| < MAX_SECTION && '\n' !in name
  {
    hide LineLen, LineStep, RStripped, SectionLine, FindIn, UpToNul, Parse;
    var text := "[" + name + "]\n";
    var n := LineLen(text, MAX_LINE - 1);
    assert n > 0;
    LineLenIs(text, MAX_LINE - 1);
    var l := text[..n];
    NoNulInside(l);
    ParseFirst(st, text, n, accepts);
    BracketLine(st, l, accepts);
    var s1 := st.(lineno := st.lineno + 1);
    var r1 := SectionLine(s1, RStripped(l));
    StrippedHasNoNewline(l);
    ParseKeeps(r1, text[n..], accepts);
    SectionLineShort(s1, RStripped(l));
    SmallSectionStays(r1, text[n..], accepts);
  }

  lemma {:induction false} StrippedHasNoNewline(l: string)
    requires forall k :: 0 <= k < |l| - 1 ==> l[k] != '\n'
    ensures '\n' !in RStripped(l)
  {
    hide RStripped;
    RStrippedIs(l);
    var t := RStripped(l);
    forall k | 0 <= k < |t|
      ensures t[k] != '\n'
    {
      assert t[k] == l[k];
    }
  }

  lemma SectionLineShort(st: State, body: string)
    requires body != "" && '\n' !in body && SectionLine(st, body).error == 0 && st.lineno > 0
    ensures
      var r := SectionLine(st, body);
      |r.section| < MAX_SECTION && '\n' !in r.section && NameLike(r.prevName)
  {
    hide FindIn;
  }

  // ----- any item, and any document -----

  /** An item is read back exactly when it is writable, whatever was read before.
      Only at the very start of a text does a byte-order mark matter. */
  lemma ItemReadsBack(st: State, it: Item, accepts: Handler)
    requires st.error == 0 && NameLike(st.prevName) && (st.lineno == 0 ==> st.prevName == "")
    requires '\0' !in it.name && (it.Pair? ==> '\0' !in it.value)
    requires it.Pair? ==> accepts(Call(st.section, it.name, it.value))
    ensures
      ReadsBack(st, it, accepts) <==> Writable(it) && !(st.lineno == 0 && it.Pair? && HasBom(it.name))
  {
    hide Parse, WritablePair, HasBom, SectionLine, NoComment, Cut;
    match it
    case Section(name) =>
      var s1 := st.(lineno := st.lineno + 1);
      SectionText(st, name, accepts);
      if |name| < MAX_SECTION && '\n' !in name {
        WholeBracketLine(s1, name, accepts);
        SectionLineOf(s1.(lineno := s1.lineno + 1), name);
        if ReadsBack(st, it, accepts) {
          assert WritableSection(name);
        }
      } else if ReadsBack(st, it, accepts) {
        ReadSectionIsShort(s1, name, accepts);
      }
    case Pair(name, value) =>
      if st.lineno == 0 && HasBom(name) {
        BomIsLost(st, name, value, accepts);
      } else if WritablePair(name, value) {
        WrittenPairIsRead(st, name, value, accepts);
      } else if ReadsBack(st, it, accepts) {
        ReadPairIsWritable(st, name, value, accepts);
      }
  }

  lemma PrintEndsInNewline(it: Item)
    ensures PrintItem(it) != "" && PrintItem(it)[|PrintItem(it)| - 1] == '\n'
  {
  }

  /** What remains to be read behind the first item is again such a document. */
  lemma ItemReadOnce(st: State, it: Item, accepts: Handler) returns (r: State)
    requires st.error == 0 && NameLike(st.prevName) && (st.lineno == 0 ==> st.prevName == "")
    requires Writable(it) && (st.lineno == 0 && it.Pair? ==> !HasBom(it.name))
    requires it.Pair? ==> accepts(Call(st.section, it.name, it.value))
    ensures r == Parse(st, PrintItem(it), accepts)
    ensures r.error == 0 && NameLike(r.prevName) && r.lineno > 0
    ensures r.section == if it.Section? then it.name else st.section
    ensures r.calls == st.calls + if it.Section? then [] else [Call(st.section, it.name, it.value)]
  {
    ItemReadsBack(st, it, accepts);
    hide Parse, HasBom, WritablePair, WritableSection;
    var text := PrintItem(it);
    r := Parse(st, text, accepts);
    ParseLater(st, text, accepts);
    LinesCount(st, text, accepts);
  }

  lemma {:induction false} LinesCount(st: State, text: string, accepts: Handler)
    ensures Parse(st, text, accepts).lineno >= st.lineno
    ensures text != "" ==> Parse(st, text, accepts).lineno > st.lineno
    decreases |text|
  {
    hide LineLen, UpToNul, LineStep;
    if text != "" {
      var n := LineLen(text, MAX_LINE - 1);
      assert n > 0;
      LineCounts(st, UpToNul(text[..n]), accepts);
      LinesCount(LineStep(st, UpToNul(text[..n]), accepts), text[n..], accepts);
    }
  }

  lemma LineCounts(st: State, l: string, accepts: Handler)
    ensures LineStep(st, l, accepts).lineno == st.lineno + 1
  {
    hide LSkipped, RStripped, FindIn, HasBom, ValueOf, Cut;
  }

  ghost predicate AllAccepted(calls: seq<Call>, accepts: Handler) {
    forall c :: c in calls ==> accepts(c)
  }

  ghost predicate AllWritable(items: seq<Item>) {
    forall it :: it in items ==> Writable(it)
  }

  lemma FirstAndRest(items: seq<Item>, section: string, accepts: Handler)
    requires items != [] && AllWritable(items) && AllAccepted(Expected(items, section), accepts)
    ensures
      var it := items[0];
      && Writable(it) && AllWritable(items[1..])
      && (it.Pair? ==> accepts(Call(section, it.name, it.value)))
      && AllAccepted(Expected(items[1..], if it.Section? then it.name else section), accepts)
  {
    hide Writable;
    var it := items[0];
    if it.Pair? {
      assert Expected(items, section)[0] == Call(section, it.name, it.value);
    }
  }

  lemma {:induction false} ItemsReadBack(st: State, items: seq<Item>, accepts: Handler)
    requires st.error == 0 && NameLike(st.prevName) && (st.lineno == 0 ==> st.prevName == "")
    requires AllWritable(items) && AllAccepted(Expected(items, st.section), accepts)
    requires st.lineno == 0 && items != [] && items[0].Pair? ==> !HasBom(items[0].name)
    ensures
      var r := Parse(st, Print(items), accepts);
      r.error == 0 && r.calls == st.calls + Expected(items, st.section)
    decreases |items|
  {
    hide Parse, Writable, HasBom, NameLike, AllWritable, AllAccepted, PrintItem;
    if items == [] {
      ParseNothing(st, accepts);
    } else {
      var it := items[0];
      PrintEndsInNewline(it);
      FirstAndRest(items, st.section, accepts);
      ParseAppend(st, PrintItem(it), Print(items[1..]), accepts);
      var r := ItemReadOnce(st, it, accepts);
      ItemsReadBack(r, items[1..], accepts);
    }
  }

  /** Parsing a printed document calls the handler with its triples in order, and
      returns 0. */
  lemma {:induction false} DocumentReadsBack(items: seq<Item>, accepts: Handler)
    requires AllWritable(items) && AllAccepted(Expected(items, ""), accepts)
    requires items != [] && items[0].Pair? ==> !HasBom(items[0].name)
    ensures Parse(INIT, Print(items), accepts).calls == Expected(items, "")
    ensures Parse(INIT, Print(items), accepts).error == 0
  {
    ItemsReadBack(INIT, items, accepts);
  }
}
