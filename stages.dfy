/** A whole source file read by one of the three readers of build/build.js: its
    lines, which of them the reader looks at, and the assignments they make in order. */
module Stages {
  import opened Text
  import opened JsNumbers
  import opened Merge
  import opened Rows

  /** The three source formats; the emoji reader needs `String.fromCodePoint`,
      which stays a parameter of the model. */
  datatype Format = EmojiCsv(decode: string -> string) | AfinnTsv | SentiWSTsv

  /** What the body of a reader's loop assigns for one line. */
  type Parser = string -> seq<Entry>

  function Parse(fmt: Format): Parser
  {
    match fmt
    case EmojiCsv(decode) => line => EmojiRow(line, decode)
    case AfinnTsv => AfinnRow
    case SentiWSTsv => SentiWSRow
  }

  /** The first line index a reader uses: the emoji and SentiWS readers skip their
      header row (`if (i == 0) continue`); the AFINN reader has no such check. */
  function FirstRow(fmt: Format): nat
  {
    if fmt.AfinnTsv? then 0 else 1
  }

  /** The emoji and SentiWS readers only ever assign a finite score other than 0. */
  lemma ParseNonzero(fmt: Format, line: string)
    requires !fmt.AfinnTsv?
    ensures NonzeroScores(Parse(fmt)(line))
  {
    var ws := Parse(fmt)(line);
    if fmt.EmojiCsv? {
      assert ws == EmojiRow(line, fmt.decode);
    } else {
      assert ws == SentiWSRow(line);
    }
  }

  /** The assignments of a run of lines, line after line. */
  function Gather(row: Parser, lines: seq<string>): seq<Entry>
    decreases |lines|
  {
    if lines == [] then []
    else Gather(row, lines[..|lines| - 1]) + row(lines[|lines| - 1])
  }

  /** A run of lines names a key exactly when one of its lines does; FileTokens
      lifts this to a whole file and the lines its reader uses. */
  lemma {:induction false} GatherTokens(row: Parser, lines: seq<string>, k: string)
    ensures k in Tokens(Gather(row, lines)) <==> exists i :: 0 <= i < |lines| && k in Tokens(row(lines[i]))
    decreases |lines|
  {
    if lines != [] {
      var init := lines[..|lines| - 1];
      var last := lines[|lines| - 1];
      GatherTokens(row, init, k);
      TokensAppend(Gather(row, init), row(last));
      if k in Tokens(Gather(row, lines)) {
        if k !in Tokens(row(last)) {
          var i :| 0 <= i < |init| && k in Tokens(row(init[i]));
          assert init[i] == lines[i];
        }
      } else {
        forall i | 0 <= i < |lines| ensures k !in Tokens(row(lines[i])) {
          if i < |init| {
            assert init[i] == lines[i];
          }
        }
      }
    }
  }

  /** Lines that each assign only nonzero numbers together assign only nonzero
      numbers. */
  lemma {:induction false} GatherNonzero(row: Parser, lines: seq<string>)
    requires forall i :: 0 <= i < |lines| ==> NonzeroScores(row(lines[i]))
    ensures NonzeroScores(Gather(row, lines))
    decreases |lines|
  {
    if lines != [] {
      var init := lines[..|lines| - 1];
      assert forall i :: 0 <= i < |init| ==> init[i] == lines[i];
      GatherNonzero(row, init);
    }
  }

  /** The assignments a reader makes for a whole file: the file is cut at '\n', and
      the lines from FirstRow on are read in order. The emoji and SentiWS readers
      assign only finite numbers other than 0. */
  function FileEntries(fmt: Format, data: string): (ws: seq<Entry>)
    ensures !fmt.AfinnTsv? ==> NonzeroScores(ws)
  {
    var lines := UsedLines(fmt, data);
    if fmt.AfinnTsv? then Gather(Parse(fmt), lines)
    else
      StageNonzero(fmt, lines);
      Gather(Parse(fmt), lines)
  }

  /** The lines of a file that its reader looks at: all of them for AFINN, all but
      the header line for the other two. */
  function UsedLines(fmt: Format, data: string): (lines: seq<string>)
    ensures var all := Split(data, '\n');
      all == (if fmt.AfinnTsv? then [] else [all[0]]) + lines
  {
    var all := Split(data, '\n');
    assert all == all[..FirstRow(fmt)] + all[FirstRow(fmt)..];
    all[FirstRow(fmt)..]
  }

  /** Reading one more line appends what that line assigns. */
  lemma GatherStep(row: Parser, lines: seq<string>, lo: nat, i: nat)
    requires lo <= i < |lines|
    ensures Gather(row, lines[lo..i + 1]) == Gather(row, lines[lo..i]) + row(lines[i])
  {
    var run := lines[lo..i + 1];
    assert run[..|run| - 1] == lines[lo..i];
    assert run[|run| - 1] == lines[i];
  }

  /** Reading one more line makes that line's assignments on top of what the
      earlier lines left. */
  lemma ReadStep(h: Hash, row: Parser, lines: seq<string>, lo: nat, i: nat)
    requires lo <= i < |lines|
    ensures Store(h, Gather(row, lines[lo..i + 1])) == Store(Store(h, Gather(row, lines[lo..i])), row(lines[i]))
  {
    GatherStep(row, lines, lo, i);
    StoreAppend(h, Gather(row, lines[lo..i]), row(lines[i]));
  }

  /** Lines read by the emoji or SentiWS reader assign only finite numbers other
      than 0. */
  lemma StageNonzero(fmt: Format, lines: seq<string>)
    requires !fmt.AfinnTsv?
    ensures NonzeroScores(Gather(Parse(fmt), lines))
  {
    forall i | 0 <= i < |lines| ensures NonzeroScores(Parse(fmt)(lines[i])) {
      ParseNonzero(fmt, lines[i]);
    }
    GatherNonzero(Parse(fmt), lines);
  }

  /** A run of a single line assigns what that line assigns. (A file of one line
      assigns nothing for the emoji and SentiWS readers, which skip line 0.) */
  lemma GatherSingle(row: Parser, line: string)
    ensures Gather(row, [line]) == row(line)
  {
    assert [line][..0] == [];
  }

  /** Reading two runs of lines one after the other makes the assignments of both,
      in that order. */
  lemma {:induction false} GatherAppend(row: Parser, a: seq<string>, b: seq<string>)
    ensures Gather(row, a + b) == Gather(row, a) + Gather(row, b)
    decreases |b|
  {
    if b == [] {
      assert a + b == a;
    } else {
      assert (a + b)[..|a + b| - 1] == a + b[..|b| - 1];
      GatherAppend(row, a, b[..|b| - 1]);
    }
  }

  /** A line that assigns nothing (a wrong field count, a NaN or zero score, an
      empty AFINN word) can be removed from anywhere in a run of lines without
      changing what the run assigns, and it raises no error. FileIgnoredLine says
      the same of a whole file, where line 0 of an emoji or SentiWS file is never
      the line removed. */
  lemma IgnoredLine(row: Parser, before: seq<string>, line: string, after: seq<string>)
    requires row(line) == []
    ensures Gather(row, before + [line] + after) == Gather(row, before + after)
  {
    GatherAppend(row, before + [line], after);
    GatherAppend(row, before, [line]);
    GatherSingle(row, line);
    GatherAppend(row, before, after);
  }

  /** The emoji and SentiWS readers never use line 0: a file is read as if its
      header line were not there. */
  lemma HeaderLineSkipped(fmt: Format, header: string, rest: string)
    requires !fmt.AfinnTsv?
    requires '\n' !in header
    ensures FileEntries(fmt, header + "\n" + rest) == Gather(Parse(fmt), Split(rest, '\n'))
  {
    SplitFirst(header, rest, '\n');
    assert ([header] + Split(rest, '\n'))[1..] == Split(rest, '\n');
  }

  /** The AFINN reader does use line 0: the first line assigns like any other. */
  lemma AfinnFirstLineRead(first: string, rest: string)
    requires '\n' !in first
    ensures FileEntries(AfinnTsv, first + "\n" + rest) == AfinnRow(first) + FileEntries(AfinnTsv, rest)
  {
    var data := first + "\n" + rest;
    SplitFirst(first, rest, '\n');
    var lines := Split(rest, '\n');
    assert Parse(AfinnTsv) == AfinnRow;
    assert UsedLines(AfinnTsv, data) == [first] + lines;
    assert UsedLines(AfinnTsv, rest) == lines;
    assert FileEntries(AfinnTsv, data) == Gather(AfinnRow, [first] + lines);
    assert FileEntries(AfinnTsv, rest) == Gather(AfinnRow, lines);
    GatherAppend(AfinnRow, [first], lines);
    GatherSingle(AfinnRow, first);
  }

  /** Within a run of lines the last line to name a token wins: if line `i` assigns
      `e` as its last assignment to `e.token`, and no later line names that token,
      the hash ends up with `e.token` holding `e.score`, whatever it held before.
      FileLastLineWins says the same of a whole file. */
  lemma LastLineWins(row: Parser, h: Hash, lines: seq<string>, i: nat, j: nat)
    requires i < |lines|
    requires j < |row(lines[i])| && Latest(row(lines[i]), j)
    requires forall i' :: i < i' < |lines| ==> row(lines[i])[j].token !in Tokens(row(lines[i']))
    ensures var e := row(lines[i])[j];
      e.token in Store(h, Gather(row, lines)) && Store(h, Gather(row, lines))[e.token] == e.score
  {
    var r := row(lines[i]);
    var e := r[j];
    var rest := lines[i + 1..];
    assert lines == lines[..i] + [lines[i]] + rest;
    GatherAppend(row, lines[..i] + [lines[i]], rest);
    GatherAppend(row, lines[..i], [lines[i]]);
    GatherSingle(row, lines[i]);
    var pre := Gather(row, lines[..i]);
    var post := Gather(row, rest);
    var ws := pre + r + post;
    assert Gather(row, lines) == ws;
    assert e.token !in Tokens(post) by {
      GatherTokens(row, rest, e.token);
      forall l | 0 <= l < |rest| ensures e.token !in Tokens(row(rest[l])) {
        assert rest[l] == lines[i + 1 + l];
      }
    }
    var p := |pre| + j;
    assert ws[p] == e;
    forall q | p < q < |ws| ensures ws[q].token != e.token {
      if q < |pre| + |r| {
        assert ws[q] == r[q - |pre|];
      } else {
        assert ws[q] == post[q - |pre| - |r|];
        assert post[q - |pre| - |r|].token in Tokens(post);
      }
    }
    StoreLatest(h, ws, p);
  }

  /** Frame: a key that no line names keeps its value, or stays absent, and no key
      is ever removed. */
  lemma UntouchedKey(row: Parser, h: Hash, lines: seq<string>, k: string)
    requires forall i :: 0 <= i < |lines| ==> k !in Tokens(row(lines[i]))
    ensures Store(h, Gather(row, lines)).Keys >= h.Keys
    ensures k in Store(h, Gather(row, lines)) <==> k in h
    ensures k in h ==> Store(h, Gather(row, lines))[k] == h[k]
  {
    GatherTokens(row, lines, k);
    StoreFrame(h, Gather(row, lines), k);
  }

  /** A file's assignments are those of its split lines from FirstRow on. */
  lemma FileGather(fmt: Format, data: string)
    ensures FirstRow(fmt) <= |Split(data, '\n')|
    ensures FileEntries(fmt, data) == Gather(Parse(fmt), Split(data, '\n')[FirstRow(fmt)..])
  {
  }

  /** The lines from `f` on name a key exactly when one of them does. */
  lemma RunTokens(row: Parser, all: seq<string>, f: nat, k: string)
    requires f <= |all|
    ensures k in Tokens(Gather(row, all[f..])) <==> exists i :: f <= i < |all| && k in Tokens(row(all[i]))
  {
    var lines := all[f..];
    GatherTokens(row, lines, k);
    if k in Tokens(Gather(row, lines)) {
      var j :| 0 <= j < |lines| && k in Tokens(row(lines[j]));
      assert lines[j] == all[j + f];
    } else {
      forall i | f <= i < |all| ensures k !in Tokens(row(all[i])) {
        assert lines[i - f] == all[i];
      }
    }
  }

  /** A file names a key exactly when one of the lines its reader uses does: any
      line for AFINN, a line after line 0 for emoji and SentiWS. */
  lemma FileTokens(fmt: Format, data: string, k: string)
    ensures var all := Split(data, '\n');
      (k in Tokens(FileEntries(fmt, data))
       <==> exists i :: FirstRow(fmt) <= i < |all| && k in Tokens(Parse(fmt)(all[i])))
  {
    FileGather(fmt, data);
    RunTokens(Parse(fmt), Split(data, '\n'), FirstRow(fmt), k);
  }

  /** Removing a line at or after `f` that assigns nothing leaves what the lines
      from `f` on assign unchanged. */
  lemma RunIgnoredLine(row: Parser, before: seq<string>, line: string, after: seq<string>, f: nat)
    requires f <= |before|
    requires row(line) == []
    ensures Gather(row, (before + [line] + after)[f..]) == Gather(row, (before + after)[f..])
  {
    assert (before + [line] + after)[f..] == before[f..] + [line] + after;
    assert (before + after)[f..] == before[f..] + after;
    IgnoredLine(row, before[f..], line, after);
  }

  /** A line that assigns nothing can be removed from a file without changing what
      the reader assigns, as long as it is a line the reader uses: `before` holds
      at least the header line for the emoji and SentiWS readers. */
  lemma FileIgnoredLine(fmt: Format, before: seq<string>, line: string, after: seq<string>)
    requires |before| >= FirstRow(fmt)
    requires forall i :: 0 <= i < |before| ==> '\n' !in before[i]
    requires '\n' !in line
    requires forall i :: 0 <= i < |after| ==> '\n' !in after[i]
    requires Parse(fmt)(line) == []
    ensures FileEntries(fmt, Join(before + [line] + after, '\n'))
         == FileEntries(fmt, Join(before + after, '\n'))
  {
    var long, short := before + [line] + after, before + after;
    NewlineFree3(before, line, after);
    SplitJoin(long, '\n');
    FileGather(fmt, Join(long, '\n'));
    RunIgnoredLine(Parse(fmt), before, line, after, FirstRow(fmt));
    if short == [] {
      EmptyFile(fmt);
      EmptyRun(Parse(fmt), before, line, after, FirstRow(fmt));
    } else {
      SplitJoin(short, '\n');
      FileGather(fmt, Join(short, '\n'));
    }
  }

  /** Without other lines, a used line that assigns nothing leaves nothing. */
  lemma EmptyRun(row: Parser, before: seq<string>, line: string, after: seq<string>, f: nat)
    requires f <= |before| && before + after == []
    requires row(line) == []
    ensures Gather(row, (before + [line] + after)[f..]) == []
  {
    assert (before + [line] + after)[f..] == [line];
    GatherSingle(row, line);
  }

  /** The pieces of `before + [line] + after` are newline-free when each part is. */
  lemma NewlineFree3(before: seq<string>, line: string, after: seq<string>)
    requires forall i :: 0 <= i < |before| ==> '\n' !in before[i]
    requires '\n' !in line
    requires forall i :: 0 <= i < |after| ==> '\n' !in after[i]
    ensures var all := before + [line] + after;
      forall i :: 0 <= i < |all| ==> '\n' !in all[i]
    ensures var all := before + after;
      forall i :: 0 <= i < |all| ==> '\n' !in all[i]
  {
  }

  /** The empty file assigns nothing for any reader. */
  lemma EmptyFile(fmt: Format)
    ensures Join([], '\n') == "" && FileEntries(fmt, "") == []
  {
    assert Split("", '\n') == [""];
    assert UsedLines(fmt, "") == [""][FirstRow(fmt)..];
    if fmt.AfinnTsv? {
      AfinnBlankWord("");
      GatherSingle(AfinnRow, "");
    }
  }

  /** Within the lines from `f` on, the last line to name a token wins. */
  lemma RunLastLineWins(row: Parser, h: Hash, all: seq<string>, f: nat, i: nat, j: nat)
    requires f <= i < |all|
    requires j < |row(all[i])| && Latest(row(all[i]), j)
    requires forall i' :: i < i' < |all| ==> row(all[i])[j].token !in Tokens(row(all[i']))
    ensures var e := row(all[i])[j];
      e.token in Store(h, Gather(row, all[f..])) && Store(h, Gather(row, all[f..]))[e.token] == e.score
  {
    var lines := all[f..];
    assert lines[i - f] == all[i];
    forall i' | i - f < i' < |lines| ensures row(lines[i - f])[j].token !in Tokens(row(lines[i'])) {
      assert lines[i'] == all[i' + f];
    }
    LastLineWins(row, h, lines, i - f, j);
  }

  /** In a whole file the last used line to name a token wins: if line `i`, one the
      reader uses, makes its last assignment to `e.token` with `e`, and no later
      line names that token, the hash ends up with `e.token` holding `e.score`,
      whatever it held before. */
  lemma FileLastLineWins(fmt: Format, h: Hash, data: string, i: nat, j: nat)
    requires FirstRow(fmt) <= i < |Split(data, '\n')|
    requires var line := Split(data, '\n')[i];
      j < |Parse(fmt)(line)| && Latest(Parse(fmt)(line), j)
    requires var all := Split(data, '\n');
      forall i' :: i < i' < |all| ==> Parse(fmt)(all[i])[j].token !in Tokens(Parse(fmt)(all[i']))
    ensures var e := Parse(fmt)(Split(data, '\n')[i])[j];
      e.token in Store(h, FileEntries(fmt, data)) && Store(h, FileEntries(fmt, data))[e.token] == e.score
  {
    FileGather(fmt, data);
    RunLastLineWins(Parse(fmt), h, Split(data, '\n'), FirstRow(fmt), i, j);
  }
}
