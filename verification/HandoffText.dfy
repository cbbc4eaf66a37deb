/**
  The text format of handoff files: the printer and parser of
  swarmforge/scripts/handoffd.bb, the two header setters of
  swarmforge/scripts/ready_for_next_task.bb and
  swarmforge/scripts/handoff_lib.bb, and the approval mark of
  swarmforge/scripts/pack_web.bb.
 */
module HandoffText {
  import opened Options
  import opened Lexicographic

  type Headers = map<string, string>

  datatype Message = Message(headers: Headers, body: string)

  const SEPARATOR := ": "
  const BLANK_LINE := "\n\n"

  // ------------------------------------------------------------------- strings

  predicate StartsWith(s: string, prefix: string) {
    |prefix| <= |s| && s[..|prefix|] == prefix
  }

  /** The first place where `pattern` occurs. */
  function Find(s: string, pattern: string): (i: Option<nat>)
    ensures i.Some? ==> i.value + |pattern| <= |s| && s[i.value..i.value + |pattern|] == pattern
  {
    if StartsWith(s, pattern) then Some(0)
    else if s == [] then None
    else match Find(s[1..], pattern)
      case None => None
      case Some(i) => Some(i + 1)
  }

  predicate PairAt(s: string, c: char, d: char, i: nat) {
    i + 1 < |s| && s[i] == c && s[i + 1] == d
  }

  /** A two-character pattern is found where it first stands, and not found only when it stands nowhere. */
  lemma {:induction false} FindPair(s: string, c: char, d: char)
    ensures Find(s, [c, d]).Some? ==> PairAt(s, c, d, Find(s, [c, d]).value)
    ensures forall j: nat | PairAt(s, c, d, j) :: Find(s, [c, d]).Some? && Find(s, [c, d]).value <= j
  {
    if |s| >= 2 { assert s[..2] == [s[0], s[1]]; }
    if !StartsWith(s, [c, d]) && s != [] {
      FindPair(s[1..], c, d);
      forall j: nat | PairAt(s, c, d, j) ensures Find(s, [c, d]).Some? && Find(s, [c, d]).value <= j {
        assert j > 0 && PairAt(s[1..], c, d, j - 1);
      }
    }
  }

  lemma PairFirst(s: string, c: char, d: char, i: nat)
    requires PairAt(s, c, d, i) && forall j :: 0 <= j < i ==> !PairAt(s, c, d, j)
    ensures Find(s, [c, d]) == Some(i)
  {
    FindPair(s, c, d);
  }

  lemma {:induction false} FindChar(s: string, c: char)
    ensures Find(s, [c]).Some? ==> s[Find(s, [c]).value] == c && c !in s[..Find(s, [c]).value]
    ensures Find(s, [c]).None? ==> c !in s
  {
    if s != [] {
      assert s[..1] == [s[0]];
      if s[0] != c {
        FindChar(s[1..], c);
        var i := Find(s, [c]);
        if i.Some? { assert s[..i.value] == [s[0]] + s[1..][..i.value - 1]; }
      }
    }
  }

  lemma CharFirst(s: string, c: char, i: nat)
    requires i < |s| && s[i] == c && forall j :: 0 <= j < i ==> s[j] != c
    ensures Find(s, [c]) == Some(i)
  {
    FindChar(s, c);
    var k := Find(s, [c]).value;
    assert forall j :: 0 <= j < k ==> s[..k][j] != c;
  }

  /** `split` with a limit of two. */
  function SplitOnce(s: string, pattern: string): (string, Option<string>) {
    match Find(s, pattern)
    case None => (s, None)
    case Some(i) => (s[..i], Some(s[i + |pattern|..]))
  }

  function StripReturn(line: string): string {
    if line != [] && line[|line| - 1] == '\r' then line[..|line| - 1] else line
  }

  /** The lines of a text; trailing empty ones, which `split-lines` drops, hold no header. */
  function Lines(s: string): seq<string> {
    match Find(s, "\n")
    case None => [s]
    case Some(i) => [StripReturn(s[..i])] + Lines(s[i + 1..])
  }

  function Join(lines: seq<string>): string {
    if lines == [] then [] else if |lines| == 1 then lines[0] else lines[0] + "\n" + Join(lines[1..])
  }

  // ---------------------------------------------------------- parse and render

  /** The header of one line, or none; a later line overrides an earlier one. */
  function AddHeader(h: Headers, line: string): Headers {
    var (k, v) := SplitOnce(line, SEPARATOR);
    if v.None? then h else h[k := v.value]
  }

  function HeadersOf(lines: seq<string>): Headers {
    if lines == [] then map[] else AddHeader(HeadersOf(lines[..|lines| - 1]), lines[|lines| - 1])
  }

  /** `parse-message`. */
  function ParseMessage(content: string): Message {
    var (header, body) := SplitOnce(content, BLANK_LINE);
    Message(HeadersOf(Lines(header)), if body.Some? then body.value else [])
  }

  const PREFERRED := ["id", "from", "to", "recipient", "priority", "type", "role", "task_id", "task", "commit",
    "artifacts", "task_base_commit", "message", "created_at", "enqueued_at", "dequeued_at", "completed_at"]

  /** Identity and routing first, then the work, then the times. */
  lemma PreferredOrder()
    ensures PREFERRED[..7] == ["id", "from", "to", "recipient", "priority", "type", "role"]
    ensures PREFERRED[7..13] == ["task_id", "task", "commit", "artifacts", "task_base_commit", "message"]
    ensures PREFERRED[13..] == ["created_at", "enqueued_at", "dequeued_at", "completed_at"]
  {}

  function HeaderLine(k: string, v: string): string { k + SEPARATOR + v }

  function RenderLines(h: Headers, order: seq<string>): seq<string> {
    if order == [] then []
    else
      var k := order[|order| - 1];
      RenderLines(h, order[..|order| - 1]) + if k in h then [HeaderLine(k, h[k])] else []
  }

  function Render(m: Message, order: seq<string>): string {
    Join(RenderLines(m.headers, order)) + BLANK_LINE + m.body
  }

  /** The preferred headers first, then the others by name. */
  ghost predicate RendersIn(m: Message, others: seq<string>, content: string) {
    && InOrder(others) && (forall k :: k in others <==> k in m.headers && k !in PREFERRED)
    && content == Render(m, PREFERRED + others)
  }

  /** `render-message`. What it prints of printable headers is read back as they were. */
  method RenderMessage(m: Message) returns (content: string)
    ensures exists others :: RendersIn(m, others, content)
    ensures Printable(m.headers) ==> ParseMessage(content) == m
  {
    var preferred := set k | k in PREFERRED;
    var others := Sorted(m.headers.Keys - preferred);
    content := Render(m, PREFERRED + others);
    forall k ensures k in others <==> k in m.headers && k !in PREFERRED {
      assert k in preferred <==> k in PREFERRED;
    }
    SortedIsInOrder(others);
    assert RendersIn(m, others, content);
    if Printable(m.headers) { RoundTrip(m, PREFERRED + others); }
  }

  predicate OneLine(s: string) { '\n' !in s && '\r' !in s }

  /** Headers a file can carry: one line each, and no separator inside a name. */
  ghost predicate Printable(h: Headers) {
    forall k :: k in h ==> OneLine(k) && OneLine(h[k]) && Find(k, SEPARATOR).None?
  }

  lemma SeparatorFound(k: string, v: string, line: string)
    requires Find(k, SEPARATOR).None? && line == HeaderLine(k, v)
    ensures Find(line, SEPARATOR) == Some(|k|)
  {
    FindPair(k, ':', ' ');
    forall j | 0 <= j < |k| ensures !PairAt(line, ':', ' ', j) {
      assert !PairAt(k, ':', ' ', j) && line[j] == k[j];
      assert line[j + 1] == if j + 1 < |k| then k[j + 1] else ':';
    }
    PairFirst(line, ':', ' ', |k|);
  }

  lemma HeaderLineSplits(k: string, v: string)
    requires Find(k, SEPARATOR).None?
    ensures SplitOnce(HeaderLine(k, v), SEPARATOR) == (k, Some(v))
  {
    var line := HeaderLine(k, v);
    SeparatorFound(k, v, line);
    assert line[..|k|] == k && line[|k| + 2..] == v;
  }

  /** A line of text that stays one line, and is not empty. */
  predicate SolidLine(s: string) { OneLine(s) && s != [] }

  lemma OnlyLine(s: string)
    requires '\n' !in s
    ensures Lines(s) == [s]
  {
    FindChar(s, '\n');
  }

  lemma FirstLine(line: string, rest: string)
    requires '\n' !in line
    ensures Lines(line + "\n" + rest) == [StripReturn(line)] + Lines(rest)
  {
    var s := line + "\n" + rest;
    assert forall j :: 0 <= j < |line| ==> s[j] == line[j];
    CharFirst(s, '\n', |line|);
    assert s[|line| + 1..] == rest && s[..|line|] == line;
  }

  /** A carriage return before the break is no part of the line. */
  lemma ReturnsAreDropped(line: string, rest: string)
    requires '\n' !in line
    ensures Lines(line + "\r\n" + rest) == [line] + Lines(rest)
  {
    assert line + "\r\n" + rest == (line + "\r") + "\n" + rest;
    FirstLine(line + "\r", rest);
    assert (line + "\r")[..|line|] == line;
  }

  lemma {:induction false} LinesOfJoin(lines: seq<string>)
    requires lines != [] && forall i :: 0 <= i < |lines| ==> SolidLine(lines[i])
    ensures Lines(Join(lines)) == lines
  {
    if |lines| == 1 {
      OnlyLine(lines[0]);
    } else {
      LinesOfJoin(lines[1..]);
      FirstLine(lines[0], Join(lines[1..]));
    }
  }

  /** No two line breaks in a row, and none at the end. */
  ghost predicate SingleBreaks(s: string) {
    forall p :: 0 <= p < |s| && s[p] == '\n' ==> p + 1 < |s| && s[p + 1] != '\n'
  }

  lemma {:induction false} JoinHasSingleBreaks(lines: seq<string>)
    requires forall i :: 0 <= i < |lines| ==> SolidLine(lines[i])
    ensures SingleBreaks(Join(lines))
    ensures lines != [] ==> Join(lines) != [] && Join(lines)[0] != '\n'
  {
    if |lines| > 1 {
      var head, rest := lines[0], Join(lines[1..]);
      JoinHasSingleBreaks(lines[1..]);
      var s := head + "\n" + rest;
      assert OneLine(head) && forall q :: 0 <= q < |head| ==> s[q] == head[q] && head[q] != '\n';
      assert forall q :: 0 <= q < |rest| ==> s[|head| + 1 + q] == rest[q];
      forall p | 0 <= p < |s| && s[p] == '\n' ensures p + 1 < |s| && s[p + 1] != '\n' {
        if p > |head| { assert rest[p - |head| - 1] == '\n'; }
      }
    }
  }

  /** The first blank line ends a header block without doubled breaks. */
  lemma BlankLineFound(header: string, body: string)
    requires SingleBreaks(header)
    ensures SplitOnce(header + BLANK_LINE + body, BLANK_LINE) == (header, Some(body))
  {
    var s := header + BLANK_LINE + body;
    forall j | 0 <= j < |header| ensures !PairAt(s, '\n', '\n', j) {
      assert s[j] == header[j] && (j + 1 < |header| ==> s[j + 1] == header[j + 1]);
    }
    PairFirst(s, '\n', '\n', |header|);
    assert s[..|header|] == header && s[|header| + 2..] == body;
  }

  lemma {:induction false} RenderedLinesAreSolid(h: Headers, order: seq<string>)
    requires Printable(h)
    ensures forall i :: 0 <= i < |RenderLines(h, order)| ==> SolidLine(RenderLines(h, order)[i])
  {
    if order != [] {
      RenderedLinesAreSolid(h, order[..|order| - 1]);
      var k := order[|order| - 1];
      if k in h {
        assert OneLine(k) && OneLine(h[k]);
        assert OneLine(HeaderLine(k, h[k]));
      }
    }
  }

  function Listed(h: Headers, order: seq<string>): Headers {
    map k | k in h && k in order :: h[k]
  }

  lemma ListedGrows(h: Headers, order: seq<string>, k: string)
    ensures Listed(h, order + [k]) == if k in h then Listed(h, order)[k := h[k]] else Listed(h, order)
  {}

  lemma {:induction false} RenderedHeaders(h: Headers, order: seq<string>)
    requires Printable(h)
    ensures HeadersOf(RenderLines(h, order)) == Listed(h, order)
  {
    if order != [] {
      var init, k := order[..|order| - 1], order[|order| - 1];
      RenderedHeaders(h, init);
      assert order == init + [k];
      ListedGrows(h, init, k);
      if k in h {
        HeaderLineSplits(k, h[k]);
        var lines := RenderLines(h, init);
        assert RenderLines(h, order) == lines + [HeaderLine(k, h[k])];
        assert (lines + [HeaderLine(k, h[k])])[..|lines|] == lines;
      } else {
        assert RenderLines(h, order) == RenderLines(h, init);
      }
    } else {
      assert Listed(h, order) == map[];
    }
  }

  /** What is printed is read back: every printable header map, every body, every header order. */
  lemma RoundTrip(m: Message, order: seq<string>)
    requires Printable(m.headers) && forall k :: k in m.headers ==> k in order
    ensures ParseMessage(Render(m, order)) == m
  {
    var lines := RenderLines(m.headers, order);
    RenderedLinesAreSolid(m.headers, order);
    RenderedHeaders(m.headers, order);
    assert Listed(m.headers, order) == m.headers;
    JoinHasSingleBreaks(lines);
    BlankLineFound(Join(lines), m.body);
    if lines == [] {
      OnlyLine([]);
      assert HeadersOf([[]]) == map[];
    } else {
      LinesOfJoin(lines);
    }
  }

  // ------------------------------------------------------------------ recipients

  predicate IsSpace(c: char) {
    c == ' ' || '\t' <= c <= '\r' || '\U{1C}' <= c <= '\U{1F}'
  }

  predicate IsBlank(s: string) {
    forall i :: 0 <= i < |s| ==> IsSpace(s[i])
  }

  function Trim(s: string): string {
    if s == [] then [] else if IsSpace(s[0]) then Trim(s[1..])
    else if IsSpace(s[|s| - 1]) then Trim(s[..|s| - 1]) else s
  }

  /** Space is the blank, tab to carriage return, and the four separators from 1C to 1F. */
  lemma SpacesAre(c: char)
    ensures IsSpace(c) <==> c in {' ', '\t', '\n', '\U{0B}', '\U{0C}', '\r', '\U{1C}', '\U{1D}', '\U{1E}', '\U{1F}'}
  {}

  /** Trimming takes the space off both ends, and nothing else. */
  lemma {:induction false} TrimTakesSpace(s: string) returns (lo: nat)
    ensures lo + |Trim(s)| <= |s| && Trim(s) == s[lo..lo + |Trim(s)|]
    ensures forall i :: 0 <= i < |s| && !(lo <= i < lo + |Trim(s)|) ==> IsSpace(s[i])
    ensures Trim(s) == [] || IsTrimmed(Trim(s))
    decreases |s|
  {
    lo := 0;
    if s != [] {
      if IsSpace(s[0]) {
        var more := TrimTakesSpace(s[1..]);
        lo := more + 1;
        assert forall i :: 0 < i < |s| ==> s[i] == s[1..][i - 1];
      } else if IsSpace(s[|s| - 1]) {
        lo := TrimTakesSpace(s[..|s| - 1]);
      }
    }
  }

  function SplitOn(s: string, c: char): seq<string> {
    match Find(s, [c])
    case None => [s]
    case Some(i) => [s[..i]] + SplitOn(s[i + 1..], c)
  }

  function Named(pieces: seq<string>): seq<string> {
    if pieces == [] then []
    else (if IsBlank(pieces[0]) then [] else [Trim(pieces[0])]) + Named(pieces[1..])
  }

  /** `recipient-list`. */
  function RecipientList(h: Headers): seq<string> {
    if "to" in h then Named(SplitOn(h["to"], ',')) else []
  }

  function JoinOn(names: seq<string>, c: char): string {
    if names == [] then [] else if |names| == 1 then names[0] else names[0] + [c] + JoinOn(names[1..], c)
  }

  /** A name without surrounding space. */
  predicate IsTrimmed(s: string) { s != [] && !IsSpace(s[0]) && !IsSpace(s[|s| - 1]) }

  lemma FirstPiece(name: string, c: char, rest: string)
    requires c !in name
    ensures SplitOn(name + [c] + rest, c) == [name] + SplitOn(rest, c)
  {
    var s := name + [c] + rest;
    assert forall j :: 0 <= j < |name| ==> s[j] == name[j];
    CharFirst(s, c, |name|);
    assert s[|name| + 1..] == rest && s[..|name|] == name;
  }

  lemma {:induction false} JoinedNamesSplit(names: seq<string>, c: char)
    requires names != [] && forall i :: 0 <= i < |names| ==> c !in names[i]
    ensures SplitOn(JoinOn(names, c), c) == names
  {
    var name, others := names[0], names[1..];
    assert c !in name && names == [name] + others;
    if others == [] {
      FindChar(name, c);
    } else {
      JoinedNamesSplit(others, c);
      FirstPiece(name, c, JoinOn(others, c));
      assert JoinOn(names, c) == name + [c] + JoinOn(others, c);
    }
  }

  lemma {:induction false} TrimmedNamesStay(names: seq<string>)
    requires forall i :: 0 <= i < |names| ==> IsTrimmed(names[i])
    ensures Named(names) == names
  {
    if names != [] {
      assert !IsBlank(names[0]) && Trim(names[0]) == names[0];
      TrimmedNamesStay(names[1..]);
    }
  }

  /** Whatever stands between the commas: its trimmed pieces, the blank ones left out, in order. */
  lemma RecipientsAre(h: Headers, pieces: seq<string>)
    requires pieces != [] && forall i :: 0 <= i < |pieces| ==> ',' !in pieces[i]
    ensures RecipientList(h["to" := JoinOn(pieces, ',')]) == Named(pieces)
  {
    JoinedNamesSplit(pieces, ',');
  }

  lemma {:induction false} NamedPieces(a: seq<string>, piece: string, b: seq<string>)
    ensures Named(a + [piece] + b) == Named(a) + (if IsBlank(piece) then [] else [Trim(piece)]) + Named(b)
  {
    if a == [] {
      assert [] + [piece] + b == [piece] + b;
    } else {
      assert (a + [piece] + b)[1..] == a[1..] + [piece] + b;
      NamedPieces(a[1..], piece, b);
    }
  }

  /** The recipients a sender joins with commas are the ones the daemon delivers to, in order. */
  lemma RecipientsReadBack(h: Headers, names: seq<string>)
    requires names != [] && forall i :: 0 <= i < |names| ==> ',' !in names[i] && IsTrimmed(names[i])
    ensures RecipientList(h["to" := JoinOn(names, ',')]) == names
  {
    JoinedNamesSplit(names, ',');
    TrimmedNamesStay(names);
  }

  // --------------------------------------------------------------- approval mark

  const APPROVED_PREFIX := "approved: "
  const APPROVED_MARK := "\napproved: true"

  /** Where a multi-line pattern lets a line begin. */
  predicate EndsLine(c: char) {
    c == '\n' || c == '\r' || c == '\U{85}' || c == '\U{2028}' || c == '\U{2029}'
  }

  /** Some line of the whole file, body included, starts like an approval header. */
  predicate HasApprovedLine(content: string) {
    exists i :: 0 <= i <= |content| && (i == 0 || EndsLine(content[i - 1])) && StartsWith(content[i..], APPROVED_PREFIX)
  }

  /** It stands at the start of the text, or after a line feed, a carriage return, or one of the three other line ends. */
  lemma ApprovedLineIff(content: string)
    ensures HasApprovedLine(content) <==>
      || StartsWith(content, "approved: ")
      || exists i :: 0 <= i < |content| && content[i] in ['\n', '\r', '\U{0085}', '\U{2028}', '\U{2029}']
                     && StartsWith(content[i + 1..], "approved: ")
  {
    assert content[0..] == content;
    if HasApprovedLine(content) {
      var i :| 0 <= i <= |content| && (i == 0 || EndsLine(content[i - 1])) && StartsWith(content[i..], APPROVED_PREFIX);
      if i > 0 { assert StartsWith(content[i - 1 + 1..], "approved: "); }
    }
    if i :| 0 <= i < |content| && content[i] in ['\n', '\r', '\U{0085}', '\U{2028}', '\U{2029}']
            && StartsWith(content[i + 1..], "approved: ") {
      assert EndsLine(content[i + 1 - 1]) && StartsWith(content[i + 1..], APPROVED_PREFIX);
    }
  }

  /** `with-approved`. */
  function WithApproved(content: string): string {
    if HasApprovedLine(content) then content
    else match Find(content, BLANK_LINE)
      case None => content
      case Some(i) => content[..i] + APPROVED_MARK + content[i..]
  }

  /** `already-approved?`. */
  predicate AlreadyApproved(h: Headers) {
    "approved" in h && !IsBlank(h["approved"])
  }

  /** The lines of a text that a line break follows. */
  function BrokenLines(s: string): seq<string> {
    match Find(s, "\n")
    case None => [StripReturn(s)]
    case Some(i) => [StripReturn(s[..i])] + BrokenLines(s[i + 1..])
  }

  lemma CharBy(s: string, c: char, n: nat) returns (i: nat)
    requires n < |s| && s[n] == c
    ensures i <= n && Find(s, [c]) == Some(i) && Find(s[..n], [c]) == if i < n then Some(i) else None
  {
    i := 0;
    while s[i] != c
      invariant i <= n && forall j :: 0 <= j < i ==> s[j] != c
      decreases n - i
    {
      i := i + 1;
    }
    CharFirst(s, c, i);
    if i < n { CharFirst(s[..n], c, i); } else { FindChar(s[..n], c); }
  }

  lemma LinesStep(s: string, i: nat)
    requires Find(s, "\n") == Some(i)
    ensures Lines(s) == [StripReturn(s[..i])] + Lines(s[i + 1..])
    ensures BrokenLines(s) == [StripReturn(s[..i])] + BrokenLines(s[i + 1..])
  {}

  lemma Slices(s: string, n: nat, i: nat)
    requires i < n < |s|
    ensures s[i + 1..][n - i..] == s[n + 1..] && s[i + 1..][..n - i - 1] == s[..n][i + 1..] && s[..n][..i] == s[..i]
  {}

  lemma Regroup(a: seq<string>, b: seq<string>, c: seq<string>)
    ensures a + b + c == a + (b + c)
  {}

  /** One line off the front of a text `s` and of its part `a` before the last line. */
  lemma LineOff(s: string, a: string, i: nat, rest: string, front: string, last: string)
    requires Find(s, "\n") == Some(i) && Find(a, "\n") == Some(i)
    requires a[..i] == s[..i] && s[i + 1..] == rest && a[i + 1..] == front
    requires Lines(rest) == BrokenLines(front) + [last]
    ensures Lines(s) == BrokenLines(a) + [last]
  {
    LinesStep(s, i);
    LinesStep(a, i);
    Regroup([StripReturn(s[..i])], BrokenLines(front), [last]);
  }

  lemma OneBreak(s: string, a: string, last: string)
    requires Find(s, "\n") == Some(|a|) && s[..|a|] == a && s[|a| + 1..] == last
    requires Find(a, "\n").None? && '\n' !in last
    ensures Lines(s) == BrokenLines(a) + [last]
  {
    LinesStep(s, |a|);
    OnlyLine(last);
  }

  lemma {:induction false} LastLine(s: string, n: nat)
    requires n < |s| && s[n] == '\n' && '\n' !in s[n + 1..]
    ensures Lines(s) == BrokenLines(s[..n]) + [s[n + 1..]]
    decreases n
  {
    var i := CharBy(s, '\n', n);
    if i == n {
      OneBreak(s, s[..n], s[n + 1..]);
    } else {
      Slices(s, n, i);
      LastLine(s[i + 1..], n - i - 1);
      LineOff(s, s[..n], i, s[i + 1..], s[..n][i + 1..], s[n + 1..]);
    }
  }

  lemma {:induction false} BrokenLinesAreLines(a: string)
    requires StripReturn(a) == a
    ensures BrokenLines(a) == Lines(a)
  {
    if Find(a, "\n").Some? {
      var rest := a[Find(a, "\n").value + 1..];
      assert rest != [] ==> rest[|rest| - 1] == a[|a| - 1];
      BrokenLinesAreLines(rest);
    }
  }

  lemma CutAtPair(s: string, c: char, d: char, i: nat)
    requires PairAt(s, c, d, i)
    ensures s[i..] == [c, d] + s[i + 2..]
  {}

  lemma BreaksBeforeFirstBlank(content: string, i: nat)
    requires PairAt(content, '\n', '\n', i)
    requires forall p :: 0 <= p < i ==> !PairAt(content, '\n', '\n', p)
    ensures SingleBreaks(content[..i])
  {
    forall p | 0 <= p < i && content[p] == '\n' ensures p + 1 < i && content[p + 1] != '\n' {
      assert !PairAt(content, '\n', '\n', p);
    }
  }

  /** The mark becomes the last header line and the body stays what it was. */
  lemma MarkIsRead(content: string, i: nat)
    requires Find(content, BLANK_LINE) == Some(i)
    ensures
      var marked := content[..i] + APPROVED_MARK + content[i..];
      && ParseMessage(marked).body == ParseMessage(content).body
      && AlreadyApproved(ParseMessage(marked).headers)
      && (StripReturn(content[..i]) == content[..i] ==>
            ParseMessage(marked).headers == ParseMessage(content).headers["approved" := "true"])
  {
    var header, body := content[..i] + APPROVED_MARK, content[i + 2..];
    FindPair(content, '\n', '\n');
    CutAtPair(content, '\n', '\n', i);
    BreaksBeforeFirstBlank(content, i);
    assert content[..i] + APPROVED_MARK + content[i..] == header + BLANK_LINE + body;
    MarkKeepsSingleBreaks(content[..i]);
    BlankLineFound(header, body);
    MarkedHeaders(content[..i], "approved", "true");
  }

  lemma MarkKeepsSingleBreaks(a: string)
    requires SingleBreaks(a)
    ensures SingleBreaks(a + APPROVED_MARK)
  {
    var s, mark := a + APPROVED_MARK, APPROVED_MARK;
    forall p | 0 <= p < |s| && s[p] == '\n' ensures p + 1 < |s| && s[p + 1] != '\n' {
      if p < |a| { assert a[p] == '\n' && s[p + 1] == a[p + 1]; } else { assert mark[p - |a|] == '\n'; }
    }
  }

  /** A header line put after the last one is read, over any earlier one of its name. */
  lemma AppendedHeader(header: string, k: string, v: string)
    requires Find(k, SEPARATOR).None? && '\n' !in HeaderLine(k, v)
    ensures
      var after := HeadersOf(Lines(header + "\n" + HeaderLine(k, v)));
      && k in after && after[k] == v
      && (StripReturn(header) == header ==> after == HeadersOf(Lines(header))[k := v])
  {
    var s := header + "\n" + HeaderLine(k, v);
    assert s[..|header|] == header && s[|header| + 1..] == HeaderLine(k, v);
    LastLine(s, |header|);
    if StripReturn(header) == header { BrokenLinesAreLines(header); }
    HeadersOfSnoc(BrokenLines(header), HeaderLine(k, v));
    HeaderLineSplits(k, v);
  }

  lemma MarkText(k: string, v: string)
    requires k == "approved" && v == "true"
    ensures APPROVED_MARK == "\n" + HeaderLine(k, v)
    ensures Find(k, SEPARATOR).None? && '\n' !in HeaderLine(k, v) && !IsBlank(v)
  {
    FindPair(k, ':', ' ');
    assert !IsSpace(v[0]);
  }

  lemma MarkedHeaders(header: string, k: string, v: string)
    requires k == "approved" && v == "true"
    ensures
      var after := HeadersOf(Lines(header + APPROVED_MARK));
      && AlreadyApproved(after)
      && (StripReturn(header) == header ==> after == HeadersOf(Lines(header))[k := v])
  {
    MarkText(k, v);
    assert header + APPROVED_MARK == header + "\n" + HeaderLine(k, v);
    AppendedHeader(header, k, v);
  }

  /** The text is one `with-approved` adds its mark to. */
  predicate TakesMark(content: string) {
    !HasApprovedLine(content) && Find(content, BLANK_LINE).Some?
  }

  function Marked(m: Message): Message { Message(m.headers["approved" := "true"], m.body) }

  lemma MarkedIsApproved(m: Message)
    ensures AlreadyApproved(Marked(m).headers)
  {
    assert !IsSpace("true"[0]);
  }

  /**
    Approving a file releases it - the daemon will then read it as approved -
    exactly when it was approved before, or has a blank line and no line
    anywhere, body included, that already starts like an approval header.
   */
  lemma ApprovalTakesIff(content: string)
    ensures AlreadyApproved(ParseMessage(WithApproved(content)).headers) <==>
      || AlreadyApproved(ParseMessage(content).headers)
      || TakesMark(content)
    ensures ParseMessage(WithApproved(content)).body == ParseMessage(content).body
    ensures '\r' !in content ==>
      ParseMessage(WithApproved(content)) == if TakesMark(content) then Marked(ParseMessage(content)) else ParseMessage(content)
  {
    if TakesMark(content) {
      var i := Find(content, BLANK_LINE).value;
      MarkIsRead(content, i);
      assert '\r' !in content ==> StripReturn(content[..i]) == content[..i];
    }
  }

  /**
    A body that opens with the words of the mark keeps its handoff from ever
    being released. The send helper generates no such body; a hand can.
   */
  lemma BodyCanBlockApproval(m: Message, order: seq<string>)
    requires Printable(m.headers) && "approved" !in m.headers && StartsWith(m.body, APPROVED_PREFIX)
    requires forall k :: k in m.headers ==> k in order
    ensures !AlreadyApproved(ParseMessage(WithApproved(Render(m, order))).headers)
  {
    var content := Render(m, order);
    var header := Join(RenderLines(m.headers, order));
    RoundTrip(m, order);
    var i := |header| + 2;
    assert content[i..] == m.body && content[i - 1] == '\n';
    assert HasApprovedLine(content);
  }

  // -------------------------------------------------------------- header setters

  function HeadLines(lines: seq<string>): seq<string> {
    if lines == [] || IsBlank(lines[0]) then [] else [lines[0]] + HeadLines(lines[1..])
  }

  function RestLines(lines: seq<string>): seq<string> {
    if lines == [] || IsBlank(lines[0]) then lines else RestLines(lines[1..])
  }

  /** `rewrite-header-line`. */
  function RewriteLine(line: string, prefix: string, value: string): string {
    if StartsWith(line, prefix) then prefix + value else line
  }

  function Rewrite(head: seq<string>, prefix: string, value: string): seq<string> {
    if head == [] then []
    else [RewriteLine(head[0], prefix, value)] + Rewrite(head[1..], prefix, value)
  }

  predicate HasHeader(head: seq<string>, prefix: string) {
    head != [] && (StartsWith(head[0], prefix) || HasHeader(head[1..], prefix))
  }

  /** `append-header`. */
  function AppendHeader(head: seq<string>, prefix: string, value: string): seq<string> {
    if HasHeader(head, prefix) then head else head + [prefix + value]
  }

  /** `set-header-lines` of the shared library. */
  function SetHeaderLines(lines: seq<string>, field: string, value: string): seq<string> {
    var prefix := field + SEPARATOR;
    AppendHeader(Rewrite(HeadLines(lines), prefix, value), prefix, value) + RestLines(lines)
  }

  /** The loop of the helpers' own `set-header!`. */
  function SetHeaderLoop(remaining: seq<string>, out: seq<string>, inserted: bool, replaced: bool,
                         prefix: string, value: string): seq<string>
    decreases |remaining|
  {
    if remaining == [] then
      if !inserted && !replaced then out + [prefix + value] else out
    else
      var line := remaining[0];
      if !inserted && IsBlank(line) then
        SetHeaderLoop(remaining[1..], out + (if replaced then [] else [prefix + value]) + [line], true, replaced, prefix, value)
      else if !inserted && StartsWith(line, prefix) then
        SetHeaderLoop(remaining[1..], out + [prefix + value], inserted, true, prefix, value)
      else
        SetHeaderLoop(remaining[1..], out + [line], inserted, replaced, prefix, value)
  }

  lemma {:induction false} LoopCopies(remaining: seq<string>, out: seq<string>, replaced: bool, prefix: string, value: string)
    ensures SetHeaderLoop(remaining, out, true, replaced, prefix, value) == out + remaining
    decreases |remaining|
  {
    if remaining == [] {
      assert out + remaining == out;
    } else {
      LoopCopies(remaining[1..], out + [remaining[0]], replaced, prefix, value);
      assert out + [remaining[0]] + remaining[1..] == out + remaining;
    }
  }

  /** What the loop still has to write while it is in the header block. */
  function Pending(remaining: seq<string>, replaced: bool, prefix: string, value: string): seq<string> {
    var rewritten := Rewrite(HeadLines(remaining), prefix, value);
    (if replaced || HasHeader(rewritten, prefix) then rewritten else rewritten + [prefix + value]) + RestLines(remaining)
  }

  lemma PendingStep(remaining: seq<string>, replaced: bool, prefix: string, value: string)
    requires remaining != [] && !IsBlank(remaining[0])
    ensures Pending(remaining, replaced, prefix, value) ==
      [RewriteLine(remaining[0], prefix, value)]
      + Pending(remaining[1..], replaced || StartsWith(remaining[0], prefix), prefix, value)
  {
    var line := RewriteLine(remaining[0], prefix, value);
    var rest := Rewrite(HeadLines(remaining[1..]), prefix, value);
    var rewritten := Rewrite(HeadLines(remaining), prefix, value);
    assert HeadLines(remaining)[1..] == HeadLines(remaining[1..]);
    assert rewritten == [line] + rest;
    assert rewritten[1..] == rest;
    assert StartsWith(prefix + value, prefix);
  }

  lemma {:induction false} LoopRewrites(remaining: seq<string>, out: seq<string>, replaced: bool, prefix: string, value: string)
    ensures SetHeaderLoop(remaining, out, false, replaced, prefix, value) == out + Pending(remaining, replaced, prefix, value)
    decreases |remaining|
  {
    if remaining != [] && !IsBlank(remaining[0]) {
      var line := RewriteLine(remaining[0], prefix, value);
      var replaced' := replaced || StartsWith(remaining[0], prefix);
      LoopRewrites(remaining[1..], out + [line], replaced', prefix, value);
      PendingStep(remaining, replaced, prefix, value);
      Regroup(out, [line], Pending(remaining[1..], replaced', prefix, value));
    } else {
      LoopLeavesHeaders(remaining, out, replaced, prefix, value);
    }
  }

  lemma LoopLeavesHeaders(remaining: seq<string>, out: seq<string>, replaced: bool, prefix: string, value: string)
    requires remaining == [] || IsBlank(remaining[0])
    ensures SetHeaderLoop(remaining, out, false, replaced, prefix, value) == out + Pending(remaining, replaced, prefix, value)
  {
    var extra := if replaced then [] else [prefix + value];
    assert Pending(remaining, replaced, prefix, value) == extra + remaining;
    if remaining != [] {
      LoopCopies(remaining[1..], out + extra + [remaining[0]], replaced, prefix, value);
      Regroup(out + extra, [remaining[0]], remaining[1..]);
      assert [remaining[0]] + remaining[1..] == remaining;
      Regroup(out, extra, remaining);
    }
  }

  /** The two setters write the same lines, whatever the file. */
  lemma SettersAgree(lines: seq<string>, field: string, value: string)
    ensures SetHeaderLoop(lines, [], false, false, field + SEPARATOR, value) == SetHeaderLines(lines, field, value)
  {
    LoopRewrites(lines, [], false, field + SEPARATOR, value);
  }

  /** `header-map` of the guard: the headers above the first blank line. */
  function HeaderMap(lines: seq<string>): Headers { HeadersOf(HeadLines(lines)) }

  lemma StartsIffNamed(line: string, field: string)
    requires Find(field, SEPARATOR).None?
    ensures StartsWith(line, field + SEPARATOR) <==> SplitOnce(line, SEPARATOR).0 == field && SplitOnce(line, SEPARATOR).1.Some?
  {
    var prefix := field + SEPARATOR;
    if StartsWith(line, prefix) {
      var v := line[|prefix|..];
      assert line == HeaderLine(field, v);
      HeaderLineSplits(field, v);
    }
    if SplitOnce(line, SEPARATOR).1.Some? && SplitOnce(line, SEPARATOR).0 == field {
      var i := Find(line, SEPARATOR).value;
      assert line[..i + 2] == line[..i] + line[i..i + 2];
    }
  }

  lemma {:induction false} HeadersOfConcat(a: seq<string>, b: seq<string>)
    ensures HeadersOf(a + b) == HeadersOf(a) + HeadersOf(b)
  {
    if b == [] {
      assert a + b == a;
    } else {
      var init, last := b[..|b| - 1], b[|b| - 1];
      assert (a + b)[..|a + b| - 1] == a + init;
      HeadersOfConcat(a, init);
    }
  }

  lemma OneHeader(line: string)
    ensures HeadersOf([line]) == AddHeader(map[], line)
  {
    assert [line][..0] == [];
  }

  lemma {:induction false} HeadersOfCons(line: string, lines: seq<string>)
    ensures HeadersOf([line] + lines) == AddHeader(map[], line) + HeadersOf(lines)
  {
    HeadersOfConcat([line], lines);
    OneHeader(line);
  }

  function Overwritten(h: Headers, field: string, value: string): Headers {
    if field in h then h[field := value] else h
  }

  lemma RewriteLineSets(line: string, field: string, value: string)
    requires Find(field, SEPARATOR).None?
    ensures AddHeader(map[], RewriteLine(line, field + SEPARATOR, value)) == Overwritten(AddHeader(map[], line), field, value)
    ensures StartsWith(RewriteLine(line, field + SEPARATOR, value), field + SEPARATOR) <==> field in AddHeader(map[], line)
  {
    StartsIffNamed(line, field);
    if StartsWith(line, field + SEPARATOR) {
      HeaderLineSplits(field, value);
      assert field + SEPARATOR + value == HeaderLine(field, value);
      assert AddHeader(map[], line) == map[field := SplitOnce(line, SEPARATOR).1.value];
    }
  }

  lemma OverwrittenSum(a: Headers, b: Headers, field: string, value: string)
    ensures Overwritten(a, field, value) + Overwritten(b, field, value) == Overwritten(a + b, field, value)
  {}

  lemma {:induction false} RewriteSets(head: seq<string>, field: string, value: string)
    requires Find(field, SEPARATOR).None?
    ensures HeadersOf(Rewrite(head, field + SEPARATOR, value)) == Overwritten(HeadersOf(head), field, value)
  {
    if head != [] {
      var prefix := field + SEPARATOR;
      var first, rest := [head[0]], head[1..];
      var line := RewriteLine(head[0], prefix, value);
      RewriteSets(rest, field, value);
      assert Rewrite(head, prefix, value) == [line] + Rewrite(rest, prefix, value);
      HeadersOfCons(line, Rewrite(rest, prefix, value));
      assert head == first + rest;
      HeadersOfCons(head[0], rest);
      OverwrittenSum(AddHeader(map[], head[0]), HeadersOf(rest), field, value);
      RewriteLineSets(head[0], field, value);
    }
  }

  lemma {:induction false} HasHeaderIffNamed(head: seq<string>, field: string, value: string)
    requires Find(field, SEPARATOR).None?
    ensures HasHeader(Rewrite(head, field + SEPARATOR, value), field + SEPARATOR) <==> field in HeadersOf(head)
  {
    if head != [] {
      var prefix := field + SEPARATOR;
      var rest := Rewrite(head[1..], prefix, value);
      HasHeaderIffNamed(head[1..], field, value);
      RewriteLineSets(head[0], field, value);
      assert head == [head[0]] + head[1..];
      assert ([RewriteLine(head[0], prefix, value)] + rest)[1..] == rest;
      HeadersOfCons(head[0], head[1..]);
    }
  }

  predicate NoneBlank(head: seq<string>) {
    head == [] || (!IsBlank(head[0]) && NoneBlank(head[1..]))
  }

  lemma {:induction false} HeadersAreNotBlank(lines: seq<string>, field: string, value: string, extra: seq<string>)
    requires extra == [] || extra == [field + SEPARATOR + value]
    ensures NoneBlank(Rewrite(HeadLines(lines), field + SEPARATOR, value) + extra)
  {
    var prefix := field + SEPARATOR;
    assert (prefix + value)[|field|] == ':';
    if lines == [] || IsBlank(lines[0]) {
      assert [] + extra == extra;
      assert extra != [] ==> extra[1..] == [];
    } else {
      HeadersAreNotBlank(lines[1..], field, value, extra);
      var line := RewriteLine(lines[0], prefix, value);
      var rest := Rewrite(HeadLines(lines[1..]), prefix, value);
      assert HeadLines(lines)[1..] == HeadLines(lines[1..]);
      assert ([line] + rest + extra)[1..] == rest + extra;
    }
  }

  lemma {:induction false} RestIsBlankFirst(lines: seq<string>)
    ensures RestLines(lines) == [] || IsBlank(RestLines(lines)[0])
  {
    if lines != [] && !IsBlank(lines[0]) { RestIsBlankFirst(lines[1..]); }
  }

  lemma {:induction false} HeadThenRest(head: seq<string>, rest: seq<string>)
    requires NoneBlank(head) && (rest == [] || IsBlank(rest[0]))
    ensures HeadLines(head + rest) == head && RestLines(head + rest) == rest
  {
    if head == [] {
      assert [] + rest == rest;
    } else {
      HeadThenRest(head[1..], rest);
      assert (head + rest)[1..] == head[1..] + rest;
    }
  }

  lemma NewHeadIsNotBlank(lines: seq<string>, field: string, value: string)
    ensures NoneBlank(AppendHeader(Rewrite(HeadLines(lines), field + SEPARATOR, value), field + SEPARATOR, value))
  {
    HeadersAreNotBlank(lines, field, value, []);
    HeadersAreNotBlank(lines, field, value, [field + SEPARATOR + value]);
    var rewritten := Rewrite(HeadLines(lines), field + SEPARATOR, value);
    assert rewritten + [] == rewritten;
  }

  lemma HeadersOfSnoc(lines: seq<string>, line: string)
    ensures HeadersOf(lines + [line]) == AddHeader(HeadersOf(lines), line)
  {
    assert (lines + [line])[..|lines|] == lines;
  }

  lemma HeaderLineAdds(h: Headers, field: string, value: string)
    requires Find(field, SEPARATOR).None?
    ensures AddHeader(h, field + SEPARATOR + value) == h[field := value]
  {
    HeaderLineSplits(field, value);
  }

  lemma NewHeadSets(head: seq<string>, field: string, value: string)
    requires Find(field, SEPARATOR).None?
    ensures HeadersOf(AppendHeader(Rewrite(head, field + SEPARATOR, value), field + SEPARATOR, value)) == HeadersOf(head)[field := value]
  {
    var rewritten := Rewrite(head, field + SEPARATOR, value);
    RewriteSets(head, field, value);
    HasHeaderIffNamed(head, field, value);
    if field !in HeadersOf(head) {
      HeadersOfSnoc(rewritten, field + SEPARATOR + value);
      HeaderLineAdds(HeadersOf(rewritten), field, value);
    }
  }

  /**
    Setting a header on the file is setting it in its header map: the field
    reads as the new value, every other field as before, and everything from
    the first blank line on is untouched.
   */
  lemma SetHeaderSets(lines: seq<string>, field: string, value: string)
    requires Find(field, SEPARATOR).None?
    ensures HeaderMap(SetHeaderLines(lines, field, value)) == HeaderMap(lines)[field := value]
    ensures RestLines(SetHeaderLines(lines, field, value)) == RestLines(lines)
  {
    var head := AppendHeader(Rewrite(HeadLines(lines), field + SEPARATOR, value), field + SEPARATOR, value);
    NewHeadIsNotBlank(lines, field, value);
    RestIsBlankFirst(lines);
    HeadThenRest(head, RestLines(lines));
    NewHeadSets(HeadLines(lines), field, value);
  }
}
