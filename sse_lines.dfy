/** The line decoder of the streaming client: every read is appended to a
    buffer, the buffer is split on '\n', the complete lines are handed on and
    the unterminated tail stays in the buffer. */
module SseLines {
  import opened Wrappers
  import opened JsStrings

  /** The marker an event-stream line must start with to carry a payload. */
  const DataPrefix: string := "data: "

  predicate NoNewline(s: string)
  {
    '\n' !in s
  }

  predicate AllNoNewline(lines: seq<string>)
  {
    forall k :: 0 <= k < |lines| ==> NoNewline(lines[k])
  }

  /** Each line followed by its terminating '\n'. */
  function Terminated(lines: seq<string>): string
  {
    if lines == [] then "" else lines[0] + "\n" + Terminated(lines[1..])
  }

  function Init<T>(s: seq<T>): seq<T>
    requires |s| >= 1
  {
    s[..|s| - 1]
  }

  function Last<T>(s: seq<T>): T
    requires |s| >= 1
  {
    s[|s| - 1]
  }

  /** `s.split('\n')`: the pieces between the separators, always at least one. */
  function Split(s: string): (pieces: seq<string>)
    ensures |pieces| >= 1
  {
    if s == [] then [""]
    else
      var rest := Split(s[1..]);
      if s[0] == '\n' then [""] + rest
      else [[s[0]] + rest[0]] + rest[1..]
  }

  /** Rejoining the pieces of a split with '\n' gives back the string, and no
      piece holds a '\n'. */
  lemma {:induction false} SplitRejoins(s: string)
    ensures AllNoNewline(Split(s))
    ensures Terminated(Init(Split(s))) + Last(Split(s)) == s
  {
    if s != [] {
      var rest := Split(s[1..]);
      SplitRejoins(s[1..]);
      var pieces := Split(s);
      if s[0] == '\n' {
        assert pieces == [""] + rest;
        assert Init(pieces) == [""] + Init(rest);
        assert Init(pieces)[1..] == Init(rest);
        assert Terminated(Init(pieces)) == "\n" + Terminated(Init(rest));
        Associative("\n", Terminated(Init(rest)), Last(rest));
        assert s == [s[0]] + s[1..];
      } else {
        assert pieces == [[s[0]] + rest[0]] + rest[1..];
        assert NoNewline(pieces[0]);
        assert forall k :: 1 <= k < |pieces| ==> pieces[k] == rest[k];
        if |rest| == 1 {
          assert Init(pieces) == [];
          assert Last(pieces) == [s[0]] + Last(rest);
          assert Terminated(Init(rest)) == "";
        } else {
          assert Init(pieces)[1..] == Init(rest)[1..];
          assert Init(rest)[0] == rest[0];
          assert Terminated(Init(pieces)) == [s[0]] + rest[0] + "\n" + Terminated(Init(pieces)[1..]);
          assert Terminated(Init(rest)) == rest[0] + "\n" + Terminated(Init(rest)[1..]);
          assert Terminated(Init(pieces)) == [s[0]] + Terminated(Init(rest));
          Associative([s[0]], Terminated(Init(rest)), Last(rest));
        }
        assert s == [s[0]] + s[1..];
      }
    }
  }

  /** What one read leaves behind: the complete lines and the new buffer. */
  datatype Fed = Fed(lines: seq<string>, rest: string)

  /** One turn of the read loop: `buffer += text; lines = buffer.split('\n');
      buffer = lines.pop() || ''`. */
  function Feed(buffer: string, text: string): Fed
  {
    var pieces := Split(buffer + text);
    Fed(Init(pieces), Last(pieces))
  }

  /** One read: the lines handed on, each with its '\n', followed by the new
      buffer, give back the old buffer and the read; none holds a '\n'. */
  lemma FeedRejoins(buffer: string, text: string)
    ensures Terminated(Feed(buffer, text).lines) + Feed(buffer, text).rest == buffer + text
    ensures AllNoNewline(Feed(buffer, text).lines) && NoNewline(Feed(buffer, text).rest)
  {
    SplitRejoins(buffer + text);
    var pieces := Split(buffer + text);
    assert forall k :: 0 <= k < |Init(pieces)| ==> Init(pieces)[k] == pieces[k];
  }

  /** The read loop run over every read, starting from `buffer`. */
  function DecodeFrom(buffer: string, texts: seq<string>): (f: Fed)
    decreases |texts|
  {
    if texts == [] then Fed([], buffer)
    else
      var first := Feed(buffer, texts[0]);
      var after := DecodeFrom(first.rest, texts[1..]);
      Fed(first.lines + after.lines, after.rest)
  }

  /** The lines handed on, each with its '\n', followed by the final buffer,
      give back the starting buffer and every read, in order. */
  lemma {:induction false} DecodeFromRejoins(buffer: string, texts: seq<string>)
    ensures Terminated(DecodeFrom(buffer, texts).lines) + DecodeFrom(buffer, texts).rest == buffer + Concat(texts)
    decreases |texts|
  {
    if texts != [] {
      var first := Feed(buffer, texts[0]);
      var after := DecodeFrom(first.rest, texts[1..]);
      DecodeFromRejoins(first.rest, texts[1..]);
      FeedRejoins(buffer, texts[0]);
      TerminatedAppend(first.lines, after.lines);
      var a, b := Terminated(first.lines), Terminated(after.lines);
      assert Terminated(first.lines + after.lines) == a + b;
      Associative(a, b, after.rest);
      Associative(a, first.rest, Concat(texts[1..]));
      Associative(buffer, texts[0], Concat(texts[1..]));
    }
  }

  /** After every read no handed-on line and not the buffer holds a '\n'. */
  lemma {:induction false} DecodeFromSplitsLines(buffer: string, texts: seq<string>)
    requires texts != [] || NoNewline(buffer)
    ensures AllNoNewline(DecodeFrom(buffer, texts).lines) && NoNewline(DecodeFrom(buffer, texts).rest)
    decreases |texts|
  {
    if texts != [] {
      var first := Feed(buffer, texts[0]);
      var after := DecodeFrom(first.rest, texts[1..]);
      FeedRejoins(buffer, texts[0]);
      DecodeFromSplitsLines(first.rest, texts[1..]);
      assert DecodeFrom(buffer, texts).lines == first.lines + after.lines;
    }
  }

  /** The decoder as the streaming client starts it, with an empty buffer. */
  function Decode(texts: seq<string>): Fed
  {
    DecodeFrom("", texts)
  }

  /** `line.startsWith('data: ') ? line.slice(6) : skipped`. */
  function DataPayload(line: string): (p: Option<string>)
    ensures p.Some? <==> |line| >= |DataPrefix| && line[..|DataPrefix|] == DataPrefix
    ensures p.Some? ==> line == DataPrefix + p.value
  {
    if |line| >= |DataPrefix| && line[..|DataPrefix|] == DataPrefix then Some(line[|DataPrefix|..])
    else None
  }

  /** The payload of a data line is what follows the prefix. */
  lemma DataPayloadOfPrefixed(payload: string)
    ensures DataPayload(DataPrefix + payload) == Some(payload)
  {
    assert (DataPrefix + payload)[..|DataPrefix|] == DataPrefix;
    assert (DataPrefix + payload)[|DataPrefix|..] == payload;
  }

  lemma {:induction false} TerminatedAppend(a: seq<string>, b: seq<string>)
    ensures Terminated(a + b) == Terminated(a) + Terminated(b)
  {
    if a == [] {
      assert a + b == b;
    } else {
      assert (a + b)[1..] == a[1..] + b;
      TerminatedAppend(a[1..], b);
    }
  }

  lemma Associative(a: string, b: string, c: string)
    ensures (a + b) + c == a + (b + c)
  {
  }

  /** Two lines that each end at the first '\n' of the same string agree. */
  lemma SameFirstLine(h1: string, t1: string, h2: string, t2: string)
    requires NoNewline(h1) && NoNewline(h2)
    requires h1 + "\n" + t1 == h2 + "\n" + t2
    ensures h1 == h2 && t1 == t2
  {
    var s := h1 + "\n" + t1;
    FirstNewlineAt(h1, t1);
    FirstNewlineAt(h2, t2);
    if |h1| != |h2| {
      assert false;
    }
    assert h1 == s[..|h1|] == h2;
    assert t1 == s[|h1| + 1..] == t2;
  }

  /** In `h + "\n" + t` with a newline-free `h`, the first '\n' is the one after `h`. */
  lemma FirstNewlineAt(h: string, t: string)
    requires NoNewline(h)
    ensures forall k :: 0 <= k < |h| ==> (h + "\n" + t)[k] != '\n'
    ensures (h + "\n" + t)[|h|] == '\n'
  {
    forall k | 0 <= k < |h|
      ensures (h + "\n" + t)[k] != '\n'
    {
      assert (h + "\n" + t)[k] == h[k];
      assert h[k] in h;
    }
  }

  /** A string cut into newline-free lines and a newline-free tail can be cut
      in only one way. */
  lemma {:induction false} TerminatedUnique(lines1: seq<string>, rest1: string, lines2: seq<string>, rest2: string)
    requires AllNoNewline(lines1) && NoNewline(rest1)
    requires AllNoNewline(lines2) && NoNewline(rest2)
    requires Terminated(lines1) + rest1 == Terminated(lines2) + rest2
    ensures lines1 == lines2 && rest1 == rest2
  {
    if lines1 == [] && lines2 == [] {
      assert rest1 == Terminated(lines1) + rest1;
      assert rest2 == Terminated(lines2) + rest2;
    } else if lines1 == [] {
      NewlineIn(lines2, rest2);
      assert false;
    } else if lines2 == [] {
      NewlineIn(lines1, rest1);
      assert false;
    } else {
      var t1 := Terminated(lines1[1..]) + rest1;
      var t2 := Terminated(lines2[1..]) + rest2;
      assert Terminated(lines1) + rest1 == lines1[0] + "\n" + t1;
      assert Terminated(lines2) + rest2 == lines2[0] + "\n" + t2;
      assert NoNewline(lines1[0]) && NoNewline(lines2[0]);
      SameFirstLine(lines1[0], t1, lines2[0], t2);
      TerminatedUnique(lines1[1..], rest1, lines2[1..], rest2);
      assert lines1 == [lines1[0]] + lines1[1..];
      assert lines2 == [lines2[0]] + lines2[1..];
    }
  }

  lemma NewlineIn(lines: seq<string>, rest: string)
    requires lines != []
    ensures !NoNewline(Terminated(lines) + rest)
  {
    var s := Terminated(lines) + rest;
    assert s == lines[0] + "\n" + (Terminated(lines[1..]) + rest);
    assert s[|lines[0]|] == '\n';
    assert s[|lines[0]|] in s;
  }

  /** The lines handed on and the final buffer are those of splitting the
      concatenation of all reads at once. */
  lemma DecodeIsSplitOfConcat(texts: seq<string>)
    ensures Decode(texts) == Fed(Init(Split(Concat(texts))), Last(Split(Concat(texts))))
  {
    var f := Decode(texts);
    var pieces := Split(Concat(texts));
    SplitRejoins(Concat(texts));
    assert AllNoNewline(Init(pieces)) by {
      assert forall k :: 0 <= k < |Init(pieces)| ==> Init(pieces)[k] == pieces[k];
    }
    DecodeFromRejoins("", texts);
    DecodeFromSplitsLines("", texts);
    assert "" + Concat(texts) == Concat(texts);
    TerminatedUnique(f.lines, f.rest, Init(pieces), Last(pieces));
  }

  /** The decoder depends only on the concatenated input, not on where the
      reads split it. */
  lemma DecodeIgnoresFragmentation(texts1: seq<string>, texts2: seq<string>)
    requires Concat(texts1) == Concat(texts2)
    ensures Decode(texts1) == Decode(texts2)
  {
    DecodeIsSplitOfConcat(texts1);
    DecodeIsSplitOfConcat(texts2);
  }

  /** Split gives back any cut of `s` into newline-free lines and a
      newline-free tail. */
  lemma SplitOfCut(s: string, lines: seq<string>, rest: string)
    requires AllNoNewline(lines) && NoNewline(rest)
    requires Terminated(lines) + rest == s
    ensures Split(s) == lines + [rest]
  {
    var pieces := Split(s);
    SplitRejoins(s);
    assert AllNoNewline(Init(pieces)) by {
      assert forall k :: 0 <= k < |Init(pieces)| ==> Init(pieces)[k] == pieces[k];
    }
    TerminatedUnique(Init(pieces), Last(pieces), lines, rest);
    assert pieces == Init(pieces) + [Last(pieces)];
  }

  lemma SplitWithoutNewline(s: string)
    requires NoNewline(s)
    ensures Split(s) == [s]
  {
    SplitOfCut(s, [], s);
  }

  lemma SplitAtNewline(line: string, s: string)
    requires NoNewline(line)
    ensures Split(line + "\n" + s) == [line] + Split(s)
  {
    var tail := Split(s);
    SplitRejoins(s);
    var lines := [line] + Init(tail);
    assert forall k :: 1 <= k < |lines| ==> lines[k] == tail[k - 1];
    assert lines[1..] == Init(tail);
    assert Terminated(lines) == line + "\n" + Terminated(Init(tail));
    Associative(line + "\n", Terminated(Init(tail)), Last(tail));
    assert AllNoNewline(lines);
    SplitOfCut(line + "\n" + s, lines, Last(tail));
    assert [line] + tail == lines + [Last(tail)];
  }
}
