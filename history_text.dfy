/**
 * The "Price History" field of the chat notification built by
 * `send_discord`: the last five samples, one line each as
 * `date → £price`, joined by newlines, replaced by a fixed placeholder when
 * there are none, and cut to the field's 1024-character budget.
 *
 * How a float price is printed is not modelled: it is the parameter
 * `render`.
 */
module HistoryText {
  import opened History

  const RecentCount: nat := 5
  const FieldLimit: nat := 1024
  const Placeholder: string := "No history yet"
  const Arrow: char := '→'

  /** One history line: the date, an arrow, a pound sign and the rendered
      price. */
  function Line(s: Sample, render: real -> string): (r: string)
    ensures Arrow in r
    ensures |r| > |s.date| && r[..|s.date|] == s.date
  {
    s.date + " " + [Arrow] + " £" + render(s.price)
  }

  /** One line per sample, in the samples' order. */
  function Lines(ss: seq<Sample>, render: real -> string): (r: seq<string>)
    ensures |r| == |ss|
    ensures forall i :: 0 <= i < |ss| ==> r[i] == Line(ss[i], render)
  {
    if ss == [] then [] else [Line(ss[0], render)] + Lines(ss[1..], render)
  }

  /** The lines joined with a newline between consecutive ones: nothing for
      no lines; otherwise the text starts with the first line and ends with
      the last. */
  function Join(lines: seq<string>): (r: string)
    ensures |lines| == 0 ==> r == ""
    ensures |lines| > 0 ==> |r| >= |lines[0]| && r[..|lines[0]|] == lines[0]
    ensures |lines| > 0 ==> |r| >= |lines[|lines| - 1]|
    ensures |lines| > 0 ==> r[|r| - |lines[|lines| - 1]|..] == lines[|lines| - 1]
  {
    if |lines| == 0 then ""
    else if |lines| == 1 then lines[0]
    else
      var rest := Join(lines[1..]);
      var r := lines[0] + "\n" + rest;
      assert r[|r| - |rest|..] == rest;
      r
  }

  /** An arrow in the first line is an arrow in the joined text. */
  lemma ArrowInJoin(lines: seq<string>)
    requires |lines| > 0 && Arrow in lines[0]
    ensures Arrow in Join(lines)
  {
    var k :| 0 <= k < |lines[0]| && lines[0][k] == Arrow;
    assert Join(lines)[k] == Arrow;
  }

  /** The joined lines of the last five samples, or the placeholder when
      the join is empty. The placeholder appears exactly when there is no
      history at all: a real line always holds an arrow, and the placeholder
      holds none. */
  function Text(history: seq<Sample>, render: real -> string): (r: string)
    ensures r == Placeholder <==> history == []
  {
    var lines := Lines(LastN(history, RecentCount), render);
    var joined := Join(lines);
    assert history != [] ==> joined != "" && joined != Placeholder by {
      PlaceholderHasNoArrow();
      if history != [] { ArrowInJoin(lines); }
    }
    if joined != "" then joined else Placeholder
  }

  /** The text cut to the field's character budget, as the field shows it. */
  function Field(history: seq<Sample>, render: real -> string): (r: string)
    ensures |r| <= FieldLimit
    ensures |r| == Min(FieldLimit, |Text(history, render)|)
    ensures |r| <= |Text(history, render)| && r == Text(history, render)[..|r|]
    ensures |Text(history, render)| <= FieldLimit ==> r == Text(history, render)
  {
    var t := Text(history, render);
    if |t| <= FieldLimit then t else t[..FieldLimit]
  }

  /** Splitting at every newline: the inverse of `Join` on lines that hold
      no newline of their own. */
  function SplitLines(s: string): (r: seq<string>)
    ensures |r| > 0
  {
    if s == [] then [""]
    else if s[0] == '\n' then [""] + SplitLines(s[1..])
    else
      var rest := SplitLines(s[1..]);
      [[s[0]] + rest[0]] + rest[1..]
  }

  predicate NoNewline(line: string) { '\n' !in line }

  /** `t` ends with `suffix`. */
  predicate EndsWith(t: string, suffix: string)
  {
    |suffix| <= |t| && t[|t| - |suffix|..] == suffix
  }

  /** A newline-free prefix stays glued to the first line of what follows. */
  lemma {:induction false} SplitPrefix(a: string, t: string)
    requires NoNewline(a)
    ensures SplitLines(a + t) == [a + SplitLines(t)[0]] + SplitLines(t)[1..]
  {
    if a != [] {
      var st := SplitLines(t);
      assert (a + t)[0] == a[0] && a[0] != '\n';
      assert (a + t)[1..] == a[1..] + t;
      assert NoNewline(a[1..]);
      SplitPrefix(a[1..], t);
      assert SplitLines(a + t) == [[a[0]] + (a[1..] + st[0])] + st[1..];
      assert [a[0]] + (a[1..] + st[0]) == a + st[0];
    } else {
      var st := SplitLines(t);
      assert a + t == t;
      assert a + st[0] == st[0];
      assert [st[0]] + st[1..] == st;
    }
  }

  /** A newline-free line, a newline and then a text split as that line
      followed by the text's own lines. */
  lemma SplitCons(first: string, rest: string)
    requires NoNewline(first)
    ensures SplitLines(first + ("\n" + rest)) == [first] + SplitLines(rest)
  {
    SplitPrefix(first, "\n" + rest);
    assert ("\n" + rest)[0] == '\n';
    assert ("\n" + rest)[1..] == rest;
    assert first + "" == first;
  }

  /** Two or more lines join as the first, a newline and the rest joined. */
  lemma JoinCons(lines: seq<string>)
    requires |lines| > 1
    ensures Join(lines) == lines[0] + ("\n" + Join(lines[1..]))
  {
  }

  /** Splitting the joined text recovers the lines exactly. */
  lemma {:induction false} SplitJoin(lines: seq<string>)
    requires |lines| > 0
    requires forall i :: 0 <= i < |lines| ==> NoNewline(lines[i])
    ensures SplitLines(Join(lines)) == lines
  {
    if |lines| == 1 {
      SplitPrefix(lines[0], "");
      assert lines[0] + "" == lines[0];
    } else {
      SplitJoin(lines[1..]);
      SplitCons(lines[0], Join(lines[1..]));
      JoinCons(lines);
      assert lines == [lines[0]] + lines[1..];
    }
  }

  lemma PlaceholderHasNoArrow()
    ensures Arrow !in Placeholder
  {
    assert forall i | 0 <= i < |Placeholder| :: Placeholder[i] != Arrow;
  }

  /** When there is history, the text ends with the line of the latest
      sample (the one just recorded, when the tracker notifies). */
  lemma TextEndsWithLatest(history: seq<Sample>, render: real -> string)
    requires history != []
    ensures var t, l := Text(history, render), Line(history[|history| - 1], render);
      |l| <= |t| && t[|t| - |l|..] == l
  {
    var recent := LastN(history, RecentCount);
    var lines := Lines(recent, render);
    assert lines[|lines| - 1] == Line(history[|history| - 1], render) by {
      assert recent[|recent| - 1] == history[|history| - 1];
    }
    assert Text(history, render) == Join(lines);
  }

  /** What a notification shows of a non-empty history: not the
      placeholder, the latest sample's line at the very end of the text, and
      at the very end of the field too whenever the text fits in it. */
  lemma ShowsLatest(history: seq<Sample>, latest: Sample, render: real -> string)
    requires history != [] && history[|history| - 1] == latest
    ensures Text(history, render) != Placeholder
    ensures EndsWith(Text(history, render), Line(latest, render))
    ensures |Text(history, render)| <= FieldLimit ==> EndsWith(Field(history, render), Line(latest, render))
  {
    TextEndsWithLatest(history, render);
  }

  /** When there is history and neither dates nor rendered prices contain a
      newline, the text is one line per sample of the last five, in order,
      and nothing else; so it has at most five lines. */
  lemma TextLines(history: seq<Sample>, render: real -> string)
    requires history != []
    requires forall i :: 0 <= i < |history| ==> NoNewline(Line(history[i], render))
    ensures SplitLines(Text(history, render)) == Lines(LastN(history, RecentCount), render)
    ensures |SplitLines(Text(history, render))| <= RecentCount
  {
    var recent := LastN(history, RecentCount);
    var lines := Lines(recent, render);
    assert forall i :: 0 <= i < |lines| ==> NoNewline(lines[i]) by {
      forall i | 0 <= i < |lines|
        ensures NoNewline(lines[i])
      {
        assert recent[i] == history[|history| - |recent| + i];
      }
    }
    SplitJoin(lines);
    assert Text(history, render) == Join(lines);
  }
}
