/**
  The scripts read headers in three ways: the daemon splits the text at the
  first blank line and lets the last line of a name win (`parse-message`), the
  guard does so on the lines above the first blank one (`header-map`), and the
  helpers take the first line that starts with the name (`header-field`).
  Here they are shown to agree on what the daemon prints, and the helpers'
  reader to see what the setters write.
 */
module HandoffReaders {
  import opened Options
  import opened HandoffText

  function FirstField(head: seq<string>, prefix: string): Option<string> {
    if head == [] then None
    else if StartsWith(head[0], prefix) then Some(head[0][|prefix|..])
    else FirstField(head[1..], prefix)
  }

  /** `header-field`. */
  function HeaderField(lines: seq<string>, field: string): Option<string> {
    FirstField(HeadLines(lines), field + SEPARATOR)
  }

  // ------------------------------------------------------------- after a setter

  lemma {:induction false} FieldOfConcat(a: seq<string>, b: seq<string>, prefix: string)
    ensures FirstField(a + b, prefix) == if FirstField(a, prefix).Some? then FirstField(a, prefix) else FirstField(b, prefix)
  {
    if a == [] {
      assert a + b == b;
    } else {
      assert (a + b)[1..] == a[1..] + b;
      FieldOfConcat(a[1..], b, prefix);
    }
  }

  lemma {:induction false} HasHeaderIffField(head: seq<string>, prefix: string)
    ensures HasHeader(head, prefix) <==> FirstField(head, prefix).Some?
  {
    if head != [] { HasHeaderIffField(head[1..], prefix); }
  }

  /** Every line of the field reads as the new value once rewritten. */
  lemma {:induction false} RewrittenField(head: seq<string>, prefix: string, value: string)
    ensures FirstField(Rewrite(head, prefix, value), prefix) == if FirstField(head, prefix).Some? then Some(value) else None
  {
    if head != [] {
      var line, rest := RewriteLine(head[0], prefix, value), Rewrite(head[1..], prefix, value);
      RewrittenField(head[1..], prefix, value);
      assert Rewrite(head, prefix, value) == [line] + rest;
      assert ([line] + rest)[1..] == rest;
      assert (prefix + value)[..|prefix|] == prefix && (prefix + value)[|prefix|..] == value;
    }
  }

  /** Lines of one field do not start like another. */
  lemma OtherPrefix(line: string, field: string, other: string)
    requires Find(field, SEPARATOR).None? && Find(other, SEPARATOR).None? && field != other
    ensures !(StartsWith(line, field + SEPARATOR) && StartsWith(line, other + SEPARATOR))
  {
    StartsIffNamed(line, field);
    StartsIffNamed(line, other);
  }

  lemma {:induction false} OtherFieldStays(head: seq<string>, field: string, value: string, other: string)
    requires Find(field, SEPARATOR).None? && Find(other, SEPARATOR).None? && field != other
    ensures FirstField(Rewrite(head, field + SEPARATOR, value), other + SEPARATOR) == FirstField(head, other + SEPARATOR)
  {
    if head != [] {
      var prefix := field + SEPARATOR;
      var line, rest := RewriteLine(head[0], prefix, value), Rewrite(head[1..], prefix, value);
      OtherFieldStays(head[1..], field, value, other);
      assert ([line] + rest)[1..] == rest;
      OtherPrefix(head[0], field, other);
      StartsWithOwn(prefix, value);
      OtherPrefix(prefix + value, field, other);
    }
  }

  lemma StartsWithOwn(prefix: string, value: string)
    ensures StartsWith(prefix + value, prefix) && (prefix + value)[|prefix|..] == value
  {
    assert (prefix + value)[..|prefix|] == prefix;
  }

  /** The head of a file after the setter. */
  lemma NewHead(lines: seq<string>, field: string, value: string)
    ensures HeadLines(SetHeaderLines(lines, field, value))
         == AppendHeader(Rewrite(HeadLines(lines), field + SEPARATOR, value), field + SEPARATOR, value)
  {
    var head := AppendHeader(Rewrite(HeadLines(lines), field + SEPARATOR, value), field + SEPARATOR, value);
    NewHeadIsNotBlank(lines, field, value);
    RestIsBlankFirst(lines);
    HeadThenRest(head, RestLines(lines));
  }

  lemma OneLineField(line: string, prefix: string)
    ensures FirstField([line], prefix) == if StartsWith(line, prefix) then Some(line[|prefix|..]) else None
  {
    assert [line][1..] == [];
  }

  /** Get after set: the helpers read back the value, on any file, even one that repeats the header. */
  lemma FieldIsSet(lines: seq<string>, field: string, value: string)
    ensures HeaderField(SetHeaderLines(lines, field, value), field) == Some(value)
  {
    var prefix := field + SEPARATOR;
    var rewritten := Rewrite(HeadLines(lines), prefix, value);
    NewHead(lines, field, value);
    RewrittenField(HeadLines(lines), prefix, value);
    HasHeaderIffField(rewritten, prefix);
    FieldOfConcat(rewritten, [prefix + value], prefix);
    OneLineField(prefix + value, prefix);
    StartsWithOwn(prefix, value);
  }

  /** And every other field reads as before. */
  lemma OtherFieldIsKept(lines: seq<string>, field: string, value: string, other: string)
    requires Find(field, SEPARATOR).None? && Find(other, SEPARATOR).None? && field != other
    ensures HeaderField(SetHeaderLines(lines, field, value), other) == HeaderField(lines, other)
  {
    var prefix := field + SEPARATOR;
    var rewritten := Rewrite(HeadLines(lines), prefix, value);
    NewHead(lines, field, value);
    OtherFieldStays(HeadLines(lines), field, value, other);
    FieldOfConcat(rewritten, [prefix + value], other + SEPARATOR);
    OneLineField(prefix + value, other + SEPARATOR);
    StartsWithOwn(prefix, value);
    OtherPrefix(prefix + value, field, other);
  }

  // ----------------------------------------------------------- the three readers

  /** The value that counts when the last line of a name wins. */
  function LastField(head: seq<string>, prefix: string): Option<string> {
    if head == [] then None
    else
      var later := LastField(head[1..], prefix);
      if later.Some? then later
      else if StartsWith(head[0], prefix) then Some(head[0][|prefix|..]) else None
  }

  function ValueIn(h: Headers, field: string): Option<string> {
    if field in h then Some(h[field]) else None
  }

  lemma LineValue(line: string, field: string)
    requires Find(field, SEPARATOR).None?
    ensures ValueIn(AddHeader(map[], line), field)
         == if StartsWith(line, field + SEPARATOR) then Some(line[|field + SEPARATOR|..]) else None
  {
    StartsIffNamed(line, field);
    if StartsWith(line, field + SEPARATOR) {
      var v := line[|field + SEPARATOR|..];
      assert line == field + SEPARATOR + v;
      HeaderLineAdds(map[], field, v);
    }
  }

  lemma {:induction false} MapIsLastField(head: seq<string>, field: string)
    requires Find(field, SEPARATOR).None?
    ensures ValueIn(HeadersOf(head), field) == LastField(head, field + SEPARATOR)
  {
    if head != [] {
      MapIsLastField(head[1..], field);
      LineValue(head[0], field);
      assert head == [head[0]] + head[1..];
      HeadersOfCons(head[0], head[1..]);
    }
  }

  /**
    On any file the helpers and the guard read the same value of a field
    exactly when the first and the last line of that field carry it.
   */
  lemma ReadersAgreeIff(lines: seq<string>, field: string)
    requires Find(field, SEPARATOR).None?
    ensures HeaderField(lines, field) == ValueIn(HeaderMap(lines), field) <==>
      FirstField(HeadLines(lines), field + SEPARATOR) == LastField(HeadLines(lines), field + SEPARATOR)
  {
    MapIsLastField(HeadLines(lines), field);
  }

  lemma OneLineMore(line: string, rest: string, after: string)
    requires OneLine(line)
    ensures Lines(line + "\n" + rest + "\n" + after) == [line] + Lines(rest + "\n" + after)
  {
    assert line + "\n" + rest + "\n" + after == line + "\n" + (rest + "\n" + after);
    FirstLine(line, rest + "\n" + after);
  }

  lemma {:induction false} LinesOfText(lines: seq<string>, after: string)
    requires lines != [] && forall i :: 0 <= i < |lines| ==> SolidLine(lines[i])
    ensures Lines(Join(lines) + "\n" + after) == lines + Lines(after)
  {
    var line, rest := lines[0], lines[1..];
    assert lines == [line] + rest && SolidLine(line);
    if rest == [] {
      FirstLine(line, after);
    } else {
      LinesOfText(rest, after);
      OneLineMore(line, Join(rest), after);
      Regroup([line], rest, Lines(after));
    }
  }

  lemma BlankFirst(body: string)
    ensures Lines("\n" + body) == [[]] + Lines(body)
  {
    FirstLine([], body);
    assert [] + "\n" + body == "\n" + body;
  }

  lemma {:induction false} RenderedNotBlank(h: Headers, order: seq<string>)
    ensures NoneBlank(RenderLines(h, order))
  {
    if order != [] {
      var k := order[|order| - 1];
      RenderedNotBlank(h, order[..|order| - 1]);
      if k in h {
        assert HeaderLine(k, h[k])[|k|] == ':';
        SnocNotBlank(RenderLines(h, order[..|order| - 1]), HeaderLine(k, h[k]));
      } else {
        assert RenderLines(h, order) == RenderLines(h, order[..|order| - 1]);
      }
    }
  }

  lemma {:induction false} SnocNotBlank(head: seq<string>, line: string)
    requires NoneBlank(head) && !IsBlank(line)
    ensures NoneBlank(head + [line])
  {
    if head == [] {
      assert (head + [line])[1..] == [];
    } else {
      assert (head + [line])[1..] == head[1..] + [line];
      SnocNotBlank(head[1..], line);
    }
  }

  lemma {:induction false} RenderedField(h: Headers, order: seq<string>, field: string)
    requires Printable(h) && Find(field, SEPARATOR).None?
    ensures FirstField(RenderLines(h, order), field + SEPARATOR) == if field in h && field in order then Some(h[field]) else None
  {
    if order != [] {
      var init, k := order[..|order| - 1], order[|order| - 1];
      RenderedField(h, init, field);
      assert order == init + [k];
      if k in h {
        FieldOfConcat(RenderLines(h, init), [HeaderLine(k, h[k])], field + SEPARATOR);
        OneLineField(HeaderLine(k, h[k]), field + SEPARATOR);
        StartsWithOwn(k + SEPARATOR, h[k]);
        assert HeaderLine(k, h[k]) == k + SEPARATOR + h[k];
        if k != field { OtherPrefix(HeaderLine(k, h[k]), k, field); }
      } else {
        assert RenderLines(h, order) == RenderLines(h, init);
      }
    }
  }

  lemma HeadOfRendered(m: Message, order: seq<string>)
    requires Printable(m.headers)
    ensures HeadLines(Lines(Render(m, order))) == RenderLines(m.headers, order)
  {
    var lines := RenderLines(m.headers, order);
    assert Render(m, order) == Join(lines) + "\n" + ("\n" + m.body);
    RenderedLinesAreSolid(m.headers, order);
    RenderedNotBlank(m.headers, order);
    BlankFirst(m.body);
    if lines == [] {
      BlankFirst("\n" + m.body);
      assert Render(m, order) == "\n" + ("\n" + m.body);
    } else {
      LinesOfText(lines, "\n" + m.body);
      HeadThenRest(lines, [[]] + Lines(m.body));
    }
  }

  /** What the daemon prints is read alike by the daemon, the guard and the helpers, field by field. */
  lemma ReadersAgree(m: Message, order: seq<string>, field: string)
    requires Printable(m.headers) && (forall k :: k in m.headers ==> k in order) && Find(field, SEPARATOR).None?
    ensures ParseMessage(Render(m, order)).headers == m.headers
    ensures HeaderMap(Lines(Render(m, order))) == m.headers
    ensures HeaderField(Lines(Render(m, order)), field) == ValueIn(m.headers, field)
  {
    RoundTrip(m, order);
    HeadOfRendered(m, order);
    RenderedHeaders(m.headers, order);
    assert Listed(m.headers, order) == m.headers;
    RenderedField(m.headers, order, field);
  }
}
