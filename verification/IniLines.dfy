/** The INI dialect, as ini.h configures it: what one line, and a whole text, makes
    the parser do. */
module IniLines {

  const MAX_LINE: nat := 200
  const MAX_SECTION: nat := 50
  const MAX_NAME: nat := 50

  predicate IsSpace(c: char) {
    c == ' ' || '\t' <= c <= '\r'
  }

  /** isspace() of the C locale. */
  lemma SpaceIs(c: char)
    ensures IsSpace(c) <==> c in [' ', '\t', '\n', '\U{000B}', '\U{000C}', '\r']
  {
    if IsSpace(c) {
      assert '\t' as int <= c as int <= '\r' as int || c == ' ';
    }
  }

  // ----- the string routines -----

  function RStripped(t: string): (r: string)
    ensures |r| <= |t|
    decreases |t|
  {
    if t != "" && IsSpace(t[|t| - 1]) then RStripped(t[..|t| - 1]) else t
  }

  function LSkipped(t: string): (r: string)
    ensures |r| <= |t|
    decreases |t|
  {
    if t != "" && IsSpace(t[0]) then LSkipped(t[1..]) else t
  }

  /** The first of `stops`, or a `;` behind a blank, or the end. */
  function FindIn(t: string, stops: string, wasSpace: bool): (e: nat)
    ensures e <= |t|
    decreases |t|
  {
    if t == "" || t[0] in stops || (wasSpace && t[0] == ';') then 0
    else 1 + FindIn(t[1..], stops, IsSpace(t[0]))
  }

  /** strncpy0 into `size` characters. */
  function Cut(t: string, size: nat): string
    requires size > 0
  {
    if |t| < size then t else t[..size - 1]
  }

  // ----- what a line does -----

  datatype Call = Call(section: string, name: string, value: string)

  datatype State = State(section: string, prevName: string, lineno: nat, error: nat, calls: seq<Call>)

  const INIT := State("", "", 0, 0, [])

  type Handler = Call -> bool

  function Fail(st: State): State {
    if st.error == 0 then st.(error := st.lineno) else st
  }

  function Report(st: State, c: Call, accepts: Handler): State {
    var told := st.(calls := st.calls + [c]);
    if accepts(c) then told else Fail(told)
  }

  predicate HasBom(l: string) {
    |l| >= 3 && l[0] == '\U{00EF}' && l[1] == '\U{00BB}' && l[2] == '\U{00BF}'
  }

  function SectionLine(st: State, body: string): State
    requires body != ""
  {
    var e := 1 + FindIn(body[1..], "]", false);
    if e < |body| && body[e] == ']' then st.(section := Cut(body[1..e], MAX_SECTION), prevName := "")
    else Fail(st)
  }

  function ValueOf(v: string): string {
    RStripped(LSkipped(v[..FindIn(v, "", false)]))
  }

  /** There is a `=` with no comment in front of it. */
  predicate HasSeparator(body: string) {
    var e := FindIn(body, "=", false);
    e < |body| && body[e] == '='
  }

  function PairOf(section: string, body: string): Call
    requires HasSeparator(body)
  {
    var e := FindIn(body, "=", false);
    Call(section, RStripped(body[..e]), ValueOf(body[e + 1..]))
  }

  function PairLine(st: State, body: string, accepts: Handler): State {
    if HasSeparator(body) then
      var c := PairOf(st.section, body);
      Report(st.(prevName := Cut(c.name, MAX_NAME)), c, accepts)
    else Fail(st)
  }

  /** A line with its blanks stripped; it was `indented` if something was stripped in front. */
  function BodyLine(st: State, body: string, indented: bool, accepts: Handler): State {
    if body == "" || body[0] == ';' then st
    else if st.prevName != "" && indented then Report(st, Call(st.section, st.prevName, body), accepts)
    else if body[0] == '[' then SectionLine(st, body)
    else PairLine(st, body, accepts)
  }

  function LineStep(st: State, l: string, accepts: Handler): State {
    var skip := if st.lineno == 0 && HasBom(l) then 3 else 0;
    var stripped := RStripped(l[skip..]);
    var body := LSkipped(stripped);
    BodyLine(st.(lineno := st.lineno + 1), body, skip > 0 || |body| < |stripped|, accepts)
  }

  // ----- what a text does -----

  /** What the reader takes: to the newline, the end, or `room` characters. */
  function LineLen(text: string, room: nat): (n: nat)
    ensures n <= |text| && n <= room && (text != "" && room > 0 ==> n > 0)
    decreases |text|
  {
    if text == "" || room == 0 then 0
    else if text[0] == '\n' then 1
    else 1 + LineLen(text[1..], room - 1)
  }

  function UpToNul(t: string): (r: string)
    ensures |r| <= |t|
    decreases |t|
  {
    if t == "" || t[0] == '\0' then "" else [t[0]] + UpToNul(t[1..])
  }

  function Parse(st: State, text: string, accepts: Handler): State
    decreases |text|
  {
    if text == "" then st
    else
      var n := LineLen(text, MAX_LINE - 1);
      Parse(LineStep(st, UpToNul(text[..n]), accepts), text[n..], accepts)
  }

  lemma {:induction false} UpToNulIs(t: string)
    ensures
      var r := UpToNul(t);
      '\0' !in r && r == t[..|r|] && (|r| < |t| ==> t[|r|] == '\0')
    decreases |t|
  {
    if t != "" && t[0] != '\0' {
      UpToNulIs(t[1..]);
    }
  }
}
