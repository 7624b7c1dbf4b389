/** The build script itself (build/build.js): one result hash that the three
    readers fill in place, stage after stage, in the order the waterfall fixes. */
module Build {
  import opened Options
  import opened Text
  import opened JsNumbers
  import opened Merge
  import opened Rows
  import opened Stages

  /** The result hash the waterfall threads from stage to stage. */
  class Lexicon {
    var hash: Hash

    /** The waterfall's first step hands on an empty object. */
    constructor ()
      ensures hash == map[]
    {
      hash := map[];
    }

    /** `processEmoji`: every line of the emoji CSV but the header, in order, sets
        `hash[emoji] = sentiment` when it has 9 fields and its sentiment is neither
        NaN nor 0. */
    method ProcessEmoji(data: string, decode: string -> string)
      modifies this
      ensures hash == Store(old(hash), FileEntries(EmojiCsv(decode), data))
    {
      var lines := Split(data, '\n');
      ghost var row := Parse(EmojiCsv(decode));
      for i := 0 to |lines|
        invariant hash == Store(old(hash), Gather(row, lines[if i == 0 then 0 else 1..i]))
      {
        var line := Split(lines[i], ',');
        if i == 0 {
          continue;
        }
        ghost var before := hash;
        ghost var r := row(lines[i]);
        assert r == EmojiRow(lines[i], decode);
        ReadStep(old(hash), row, lines, 1, i);
        if |line| != 9 {
          continue;
        }
        var emoji := decode(line[1]);
        var occurrences := ToNumber(line[2]);
        var negCount := ToNumber(line[4]);
        var posCount := ToNumber(line[6]);
        var sentiment := EmojiSentiment(occurrences, negCount, posCount);
        if sentiment.None? {
          continue;
        }
        if sentiment.value == 0 {
          continue;
        }
        hash := hash[emoji := Finite(sentiment.value, 0)];
        assert r == [Entry(emoji, Finite(sentiment.value, 0))];
        StoreSingle(before, Entry(emoji, Finite(sentiment.value, 0)));
      }
      assert lines[1..|lines|] == UsedLines(EmojiCsv(decode), data);
    }

    /** `processAFINN`: every line of the AFINN list, the first included, sets
        `hash[field 0] = Number(field 1)` unless field 0 is empty. */
    method ProcessAFINN(data: string)
      modifies this
      ensures hash == Store(old(hash), FileEntries(AfinnTsv, data))
    {
      var lines := Split(data, '\n');
      for i := 0 to |lines|
        invariant hash == Store(old(hash), Gather(AfinnRow, lines[..i]))
      {
        ghost var before := hash;
        ReadStep(old(hash), AfinnRow, lines, 0, i);
        assert lines[0..i] == lines[..i] && lines[0..i + 1] == lines[..i + 1];
        var line := Split(lines[i], '\t');
        if line[0] == "" {
          continue;
        }
        var score := if |line| > 1 then ToNumber(line[1]) else NaN;
        hash := hash[line[0] := score];
        StoreSingle(before, Entry(line[0], score));
      }
      assert lines[..|lines|] == UsedLines(AfinnTsv, data);
    }

    /** `processSentiWSData`: every line of a SentiWS list but the header, in order,
        sets `hash[word] = sentiment` for each inflected form and then the lemma,
        when it has 3 fields and its sentiment is neither NaN nor 0. */
    method ProcessSentiWSData(data: string)
      modifies this
      ensures hash == Store(old(hash), FileEntries(SentiWSTsv, data))
    {
      var lines := Split(data, '\n');
      for i := 0 to |lines|
        invariant hash == Store(old(hash), Gather(SentiWSRow, lines[if i == 0 then 0 else 1..i]))
      {
        var line := Split(lines[i], '\t');
        if i == 0 {
          continue;
        }
        ghost var before := hash;
        ghost var r := SentiWSRow(lines[i]);
        ReadStep(old(hash), SentiWSRow, lines, 1, i);
        SentiWSRowChecks(lines[i]);
        if |line| != 3 {
          continue;
        }
        var words := Split(line[2], ',');
        words := words + [Split(line[0], '|')[0]];
        var score := ParseFloat(line[1]);
        var sentiment := Rescale(score);
        if sentiment.None? {
          continue;
        }
        if sentiment.value == 0 {
          continue;
        }
        assert r == AssignAll(words, Finite(sentiment.value, 0));
        SetAll(words, Finite(sentiment.value, 0));
      }
      assert lines[1..|lines|] == UsedLines(SentiWSTsv, data);
    }

    /** `words.forEach(word => hash[word] = score)`. */
    method SetAll(words: seq<string>, score: Number)
      modifies this
      ensures hash == Store(old(hash), AssignAll(words, score))
    {
      ghost var ws := AssignAll(words, score);
      for j := 0 to |words|
        invariant hash == Store(old(hash), ws[..j])
      {
        StoreStep(old(hash), ws, j);
        hash := hash[words[j] := score];
      }
      assert ws[..|words|] == ws;
    }

    /** `processSentiWS`: the positive list, then the negative list. */
    method ProcessSentiWS(positive: string, negative: string)
      modifies this
      ensures hash == Store(old(hash), FileEntries(SentiWSTsv, positive) + FileEntries(SentiWSTsv, negative))
    {
      ProcessSentiWSData(positive);
      ProcessSentiWSData(negative);
      StoreAppend(old(hash), FileEntries(SentiWSTsv, positive), FileEntries(SentiWSTsv, negative));
    }
  }

  /** Every assignment of the build, in the order the waterfall makes them: the
      emoji CSV, the AFINN list, the positive SentiWS list, the negative one. */
  function BuildEntries(emoji: string, afinn: string, positive: string, negative: string,
                        decode: string -> string): seq<Entry>
  {
    FileEntries(EmojiCsv(decode), emoji) + FileEntries(AfinnTsv, afinn)
      + FileEntries(SentiWSTsv, positive) + FileEntries(SentiWSTsv, negative)
  }

  /** The hash the build writes out: those assignments made to an empty object.
      It is what the four stages give when each starts from the hash the one
      before it left. */
  function BuildResult(emoji: string, afinn: string, positive: string, negative: string,
                       decode: string -> string): (r: Hash)
    ensures r == Store(Store(Store(Store(map[], FileEntries(EmojiCsv(decode), emoji)),
                                     FileEntries(AfinnTsv, afinn)),
                               FileEntries(SentiWSTsv, positive)),
                         FileEntries(SentiWSTsv, negative))
  {
    var e, a := FileEntries(EmojiCsv(decode), emoji), FileEntries(AfinnTsv, afinn);
    var p, n := FileEntries(SentiWSTsv, positive), FileEntries(SentiWSTsv, negative);
    StoreChain(map[], e, a, p, n);
    StoreAppend(Store(Store(map[], e), a), p, n);
    Store(map[], BuildEntries(emoji, afinn, positive, negative, decode))
  }

  /** The waterfall: a fresh hash through processEmoji, processAFINN and
      processSentiWS, in that order. */
  method RunBuild(emoji: string, afinn: string, positive: string, negative: string,
                  decode: string -> string) returns (hash: Hash)
    ensures hash == BuildResult(emoji, afinn, positive, negative, decode)
  {
    var lexicon := new Lexicon();
    lexicon.ProcessEmoji(emoji, decode);
    lexicon.ProcessAFINN(afinn);
    lexicon.ProcessSentiWS(positive, negative);
    hash := lexicon.hash;
    StoreAppend(Store(Store(map[], FileEntries(EmojiCsv(decode), emoji)), FileEntries(AfinnTsv, afinn)),
                FileEntries(SentiWSTsv, positive), FileEntries(SentiWSTsv, negative));
  }

  /** Across stages the last stage to name a key decides it: the negative SentiWS
      list wins over the positive one, which wins over AFINN, which wins over the
      emoji CSV; a key is in the result exactly when some stage names it. */
  lemma StageOrder(emoji: string, afinn: string, positive: string, negative: string,
                   decode: string -> string, k: string)
    ensures var r := BuildResult(emoji, afinn, positive, negative, decode);
      var e, a := FileEntries(EmojiCsv(decode), emoji), FileEntries(AfinnTsv, afinn);
      var p, n := FileEntries(SentiWSTsv, positive), FileEntries(SentiWSTsv, negative);
      && (k in r <==> k in Tokens(e) || k in Tokens(a) || k in Tokens(p) || k in Tokens(n))
      && (k in Tokens(n) ==>
            k in r && k in Store(map[], n) && r[k] == Store(map[], n)[k])
      && (k !in Tokens(n) && k in Tokens(p) ==>
            k in r && k in Store(map[], p) && r[k] == Store(map[], p)[k])
      && (k !in Tokens(n) && k !in Tokens(p) && k in Tokens(a) ==>
            k in r && k in Store(map[], a) && r[k] == Store(map[], a)[k])
      && (k !in Tokens(n) && k !in Tokens(p) && k !in Tokens(a) && k in Tokens(e) ==>
            k in r && k in Store(map[], e) && r[k] == Store(map[], e)[k])
  {
    var e, a := FileEntries(EmojiCsv(decode), emoji), FileEntries(AfinnTsv, afinn);
    var p, n := FileEntries(SentiWSTsv, positive), FileEntries(SentiWSTsv, negative);
    TokensAppend(e, a);
    TokensAppend(e + a, p);
    TokensAppend(e + a + p, n);
    SuffixDecides(map[], e, a, k);
    SuffixDecides(map[], e + a, p, k);
    SuffixDecides(map[], e + a + p, n, k);
  }

  /** Only the AFINN stage can leave a 0 or a NaN in the result: a key holding one
      was named by the AFINN list and by neither SentiWS list. */
  lemma ZeroOnlyFromAfinn(emoji: string, afinn: string, positive: string, negative: string,
                          decode: string -> string, k: string)
    requires k in BuildResult(emoji, afinn, positive, negative, decode)
    requires var v := BuildResult(emoji, afinn, positive, negative, decode)[k]; v.NaN? || v.IsZero()
    ensures k in Tokens(FileEntries(AfinnTsv, afinn))
    ensures k !in Tokens(FileEntries(SentiWSTsv, positive)) && k !in Tokens(FileEntries(SentiWSTsv, negative))
  {
    var e, a := FileEntries(EmojiCsv(decode), emoji), FileEntries(AfinnTsv, afinn);
    var p, n := FileEntries(SentiWSTsv, positive), FileEntries(SentiWSTsv, negative);
    StageOrder(emoji, afinn, positive, negative, decode, k);
    if k in Tokens(n) {
      NonzeroStored(n, k);
    } else if k in Tokens(p) {
      NonzeroStored(p, k);
    } else if k !in Tokens(a) {
      NonzeroStored(e, k);
    }
  }
}
