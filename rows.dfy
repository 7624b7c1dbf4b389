/** One line of each source file turned into the assignments the build performs
    for it (build/build.js, the bodies of the three `for (var i in data)` loops). */
module Rows {
  import opened Options
  import opened Text
  import opened JsNumbers
  import opened Merge

  /** `Math.floor(5 * w)`, the rescale the SentiWS reader applies to a weight;
      None stands for NaN. */
  function Rescale(w: Number): (s: Option<int>)
    ensures s.Some? <==> w.Finite?
    ensures s.Some? ==> IsFloor(s.value, 5.0 * Value(w))
  {
    if w.NaN? then None
    else
      var p := Pow10(w.scale);
      assert (5 * w.mantissa) as real / p as real == 5.0 * Value(w);
      Some(FloorDiv(5 * w.mantissa, p))
  }

  /** The exact emoji score before rounding, `5 * (pos/occ - neg/occ)`. */
  ghost function EmojiRatio(occurrences: Number, negative: Number, positive: Number): real
    requires occurrences.Finite? && negative.Finite? && positive.Finite?
    requires occurrences.mantissa != 0
  {
    NonzeroValue(occurrences);
    var o := Value(occurrences);
    5.0 * (Value(positive) / o - Value(negative) / o)
  }

  lemma NonzeroValue(x: Number)
    requires x.Finite? && x.mantissa != 0
    ensures Value(x) != 0.0
  {
  }

  lemma QuotientOfQuotients(a: real, b: real, c: real, d: real)
    requires b != 0.0 && c != 0.0 && d != 0.0
    ensures (a / b) / (c / d) == (a * d) / (b * c)
  {
  }

  lemma MulDiv(x: real, d: real, q: real)
    requires d != 0.0 && q * d == x
    ensures x / d == q
  {
  }

  lemma DivMul(x: real, d: real)
    requires d != 0.0
    ensures (x / d) * d == x
  {
  }

  /** `5 * (pm*po/(pp*om) - nm*po/(pn*om))` over the one denominator pp*pn*om. */
  lemma CommonDenominator(pm: real, nm: real, om: real, pp: real, pn: real, po: real)
    requires pp != 0.0 && pn != 0.0 && om != 0.0
    ensures pp * pn * om != 0.0
    ensures 5.0 * ((pm * po) / (pp * om) - (nm * po) / (pn * om))
         == (5.0 * po * (pm * pn - nm * pp)) / (pp * pn * om)
  {
    var u, v := (pm * po) / (pp * om), (nm * po) / (pn * om);
    DivMul(pm * po, pp * om);
    DivMul(nm * po, pn * om);
    calc {
      5.0 * (u - v) * (pp * pn * om);
      5.0 * (pn * (u * (pp * om)) - pp * (v * (pn * om)));
      5.0 * (pn * (pm * po) - pp * (nm * po));
      5.0 * po * (pm * pn - nm * pp);
    }
    MulDiv(5.0 * po * (pm * pn - nm * pp), pp * pn * om, 5.0 * (u - v));
  }

  /** `5 * (p/o - n/o)` over one denominator, for p = pm/pp, n = nm/pn, o = om/po. */
  lemma RatioIdentity(pm: real, nm: real, om: real, pp: real, pn: real, po: real)
    requires pp != 0.0 && pn != 0.0 && po != 0.0 && om != 0.0
    ensures pp * pn * om != 0.0
    ensures (5.0 * po * (pm * pn - nm * pp)) / (pp * pn * om)
         == 5.0 * ((pm / pp) / (om / po) - (nm / pn) / (om / po))
  {
    QuotientOfQuotients(pm, pp, om, po);
    QuotientOfQuotients(nm, pn, om, po);
    CommonDenominator(pm, nm, om, pp, pn, po);
  }

  /** Bringing `pos/occ - neg/occ` onto one integer denominator. */
  lemma EmojiAlgebra(pm: int, nm: int, om: int, pp: nat, pn: nat, po: nat)
    requires pp >= 1 && pn >= 1 && po >= 1 && om != 0
    ensures pp * pn * om != 0
    ensures (5 * po * (pm * pn - nm * pp)) as real / (pp * pn * om) as real
         == 5.0 * ((pm as real / pp as real) / (om as real / po as real)
                   - (nm as real / pn as real) / (om as real / po as real))
  {
    EmojiCasts(pm, nm, om, pp, pn, po);
    RatioIdentity(pm as real, nm as real, om as real, pp as real, pn as real, po as real);
  }

  lemma EmojiCasts(pm: int, nm: int, om: int, pp: int, pn: int, po: int)
    ensures (5 * po * (pm * pn - nm * pp)) as real == 5.0 * po as real * (pm as real * pn as real - nm as real * pp as real)
    ensures (pp * pn * om) as real == pp as real * pn as real * om as real
    ensures pp != 0 && pn != 0 && om != 0 ==> pp * pn * om != 0
  {
  }

  /** `Math.floor(5 * (pos/occ - neg/occ))` for the three counts of an emoji row;
      None stands for NaN, which is also what a zero occurrence count yields when
      the counts are not negative (every quotient is then Infinity or NaN, and
      their difference NaN). The sentiment is a number exactly when all three
      counts are and the occurrence count is not 0, and it is then the floor of
      the exact `5 * (pos/occ - neg/occ)`. */
  function EmojiSentiment(occurrences: Number, negative: Number, positive: Number): (s: Option<int>)
    ensures s.Some? <==> occurrences.Finite? && negative.Finite? && positive.Finite? && occurrences.mantissa != 0
    ensures s.Some? ==> IsFloor(s.value, EmojiRatio(occurrences, negative, positive))
  {
    if occurrences.NaN? || negative.NaN? || positive.NaN? || occurrences.mantissa == 0 then None
    else
      var pp, pn, po := Pow10(positive.scale), Pow10(negative.scale), Pow10(occurrences.scale);
      EmojiCasts(positive.mantissa, negative.mantissa, occurrences.mantissa, pp, pn, po);
      EmojiAlgebra(positive.mantissa, negative.mantissa, occurrences.mantissa, pp, pn, po);
      Some(FloorDiv(5 * po * (positive.mantissa * pn - negative.mantissa * pp), pp * pn * occurrences.mantissa))
  }

  /** The three counts of an emoji row give a sentiment other than NaN and 0. */
  ghost predicate EmojiScored(occurrences: Number, negative: Number, positive: Number)
  {
    && occurrences.Finite? && negative.Finite? && positive.Finite?
    && occurrences.mantissa != 0
    && !(0.0 <= EmojiRatio(occurrences, negative, positive) < 1.0)
  }

  /** What one line of the emoji CSV assigns: nothing unless it splits into exactly 9
      comma fields whose counts (fields 2, 4 and 6: occurrences, negative, positive)
      give a sentiment that is neither NaN nor 0; otherwise that sentiment to the
      emoji decoded from field 1. */
  function EmojiRow(line: string, decode: string -> string): (ws: seq<Entry>)
    ensures |ws| <= 1 && NonzeroScores(ws)
  {
    var f := Split(line, ',');
    if |f| != 9 then []
    else
      match EmojiSentiment(ToNumber(f[2]), ToNumber(f[4]), ToNumber(f[6]))
      case None => []
      case Some(s) => if s == 0 then [] else [Entry(decode(f[1]), Finite(s, 0))]
  }

  /** An emoji line assigns exactly when it has 9 fields and its counts score
      neither NaN nor 0, and then it assigns to the decoded field 1 the floor of
      5 * (pos/occ - neg/occ). */
  lemma EmojiRowSpec(line: string, decode: string -> string)
    ensures var ws, f := EmojiRow(line, decode), Split(line, ',');
      ws != [] <==> |f| == 9 && EmojiScored(ToNumber(f[2]), ToNumber(f[4]), ToNumber(f[6]))
    ensures var ws, f := EmojiRow(line, decode), Split(line, ',');
      ws != [] ==>
      && ws == [ws[0]] && ws[0].token == decode(f[1])
      && ws[0].score.Finite? && ws[0].score.scale == 0 && !ws[0].score.IsZero()
      && IsFloor(ws[0].score.mantissa, EmojiRatio(ToNumber(f[2]), ToNumber(f[4]), ToNumber(f[6])))
  {
    var f := Split(line, ',');
    if |f| == 9 {
      var occurrences, negative, positive := ToNumber(f[2]), ToNumber(f[4]), ToNumber(f[6]);
      match EmojiSentiment(occurrences, negative, positive)
      case None =>
      case Some(s) => FloorIsZero(s, EmojiRatio(occurrences, negative, positive));
    }
  }

  /** What one line of the AFINN list assigns: `Number(field 1)` to field 0 unless
      field 0 is empty; a line without a tab has no field 1, and Number(undefined)
      is NaN. */
  function AfinnRow(line: string): (ws: seq<Entry>)
    ensures |ws| <= 1
    ensures ws != [] ==> ws[0].token != "" && '\t' !in ws[0].token
  {
    var f := Split(line, '\t');
    if f[0] == "" then [] else [Entry(f[0], if |f| > 1 then ToNumber(f[1]) else NaN)]
  }

  /** The tokens of a SentiWS row: the inflected forms of field 2, then the lemma
      (field 0 up to its first '|'). */
  function SentiWSWords(f: seq<string>): seq<string>
    requires |f| == 3
  {
    Split(f[2], ',') + [Split(f[0], '|')[0]]
  }

  /** `words.forEach(word => hash[word] = score)`: the same score assigned to each
      word in turn. */
  function AssignAll(words: seq<string>, score: Number): (ws: seq<Entry>)
    ensures |ws| == |words|
    ensures forall i :: 0 <= i < |ws| ==> ws[i] == Entry(words[i], score)
  {
    if words == [] then []
    else AssignAll(words[..|words| - 1], score) + [Entry(words[|words| - 1], score)]
  }

  /** The sentiment a SentiWS weight field gives, `Math.floor(5 * parseFloat(text))`,
      when it is neither NaN nor 0. */
  function WeightSentiment(text: string): (s: Option<int>)
    ensures s.Some? <==> ParseFloat(text).Finite? && !(0.0 <= 5.0 * Value(ParseFloat(text)) < 1.0)
    ensures s.Some? ==> s.value != 0 && IsFloor(s.value, 5.0 * Value(ParseFloat(text)))
  {
    var weight := ParseFloat(text);
    match Rescale(weight)
    case None => None
    case Some(s) =>
      FloorIsZero(s, 5.0 * Value(weight));
      if s == 0 then None else Some(s)
  }

  /** What one line of a SentiWS list assigns: nothing unless it splits into exactly
      3 tab fields and `Math.floor(5 * parseFloat(field 1))` is neither NaN nor 0;
      otherwise that one sentiment to every inflected form and then to the lemma. */
  function SentiWSRow(line: string): (ws: seq<Entry>)
    ensures NonzeroScores(ws)
  {
    var f := Split(line, '\t');
    if |f| != 3 then []
    else
      match WeightSentiment(f[1])
      case None => []
      case Some(s) => AssignAll(SentiWSWords(f), Finite(s, 0))
  }

  /** A SentiWS line assigns exactly when it has 3 fields and its weight scores
      neither NaN nor 0, and then it assigns one and the same score, the floor of
      5 * weight, to the forms and the lemma in order. */
  lemma SentiWSRowSpec(line: string)
    ensures var ws, f := SentiWSRow(line), Split(line, '\t');
      ws != [] <==> |f| == 3 && ParseFloat(f[1]).Finite? && !(0.0 <= 5.0 * Value(ParseFloat(f[1])) < 1.0)
    ensures var ws, f := SentiWSRow(line), Split(line, '\t');
      ws != [] ==>
      && ws == AssignAll(SentiWSWords(f), ws[0].score)
      && ws[0].score.Finite? && ws[0].score.scale == 0 && !ws[0].score.IsZero()
      && IsFloor(ws[0].score.mantissa, 5.0 * Value(ParseFloat(f[1])))
  {
  }

  /** The bridge from SentiWSRow to the loop of `Lexicon.ProcessSentiWSData`, which
      checks the rescaled weight for NaN and then for 0 where SentiWSRow goes
      through WeightSentiment: both say the same of every line. */
  lemma SentiWSRowChecks(line: string)
    ensures var f := Split(line, '\t');
      SentiWSRow(line) ==
        if |f| != 3 then []
        else
          match Rescale(ParseFloat(f[1]))
          case None => []
          case Some(s) => if s == 0 then [] else AssignAll(SentiWSWords(f), Finite(s, 0))
  {
  }

  /** An AFINN line assigns exactly when it neither is empty nor starts with a tab.
      The word is then the line up to its first tab, or all of it; the score is
      Number() of the text between the first tab and the next one, or NaN when the
      line has no tab. */
  lemma AfinnRowSpec(line: string)
    ensures var ws := AfinnRow(line);
      ws != [] <==> line != [] && line[0] != '\t'
    ensures var ws := AfinnRow(line);
      ws != [] ==>
      && ws[0].token <= line
      && ('\t' !in line ==> ws[0] == Entry(line, NaN))
      && ('\t' in line ==>
            && line[|ws[0].token|] == '\t'
            && ws[0].score == ToNumber(Split(line[|ws[0].token| + 1..], '\t')[0]))
  {
    var f := Split(line, '\t');
    SplitHead(line, '\t');
    var word := f[0];
    if '\t' in line {
      var rest := line[|word| + 1..];
      assert line == word + ['\t'] + rest;
      SplitFirst(word, rest, '\t');
    }
    if line != [] && line[0] == '\t' {
      assert word == [];
    }
    if line == [] {
      assert f == [""];
    }
  }

  /** AFINN copies a score verbatim: the line `word<TAB>n` assigns exactly the
      integer n to `word`, 0 included, since this reader has no zero filter. */
  lemma AfinnVerbatim(word: string, n: int)
    requires word != "" && '\t' !in word
    ensures AfinnRow(word + "\t" + IntText(n)) == [Entry(word, Finite(n, 0))]
  {
    var t := IntText(n);
    IntTextPlain(n, '\t');
    assert [word, t][1..] == [t];
    SplitJoin([word, t], '\t');
    ToNumberIntText(n);
  }

  /** An AFINN line without a tab still assigns: `Number(undefined)`, NaN, to the
      whole line. */
  lemma AfinnNoScore(word: string)
    requires word != "" && '\t' !in word
    ensures AfinnRow(word) == [Entry(word, NaN)]
  {
    SplitWhole(word, '\t');
  }

  /** An AFINN line whose first field is empty, such as the blank line after the
      final newline, assigns nothing. */
  lemma AfinnBlankWord(rest: string)
    ensures AfinnRow("") == []
    ensures AfinnRow("\t" + rest) == []
  {
    SplitFirst("", rest, '\t');
    assert "" + ['\t'] + rest == "\t" + rest;
  }

  /** With integer counts the score is `floor(5 * (pos - neg) / occ)`. */
  lemma EmojiSentimentIntegers(occurrences: int, negative: int, positive: int)
    ensures EmojiSentiment(Finite(occurrences, 0), Finite(negative, 0), Finite(positive, 0))
         == if occurrences == 0 then None else Some(FloorDiv(5 * (positive - negative), occurrences))
  {
    assert Pow10(0) == 1;
    assert 5 * 1 * (positive * 1 - negative * 1) == 5 * (positive - negative);
    assert 1 * 1 * occurrences == occurrences;
  }

  /** Nine comma-free fields split back out of their comma join. */
  lemma EmojiIntegerFields(f0: string, code: string, f3: string, f5: string, f7: string, f8: string,
                           occurrences: int, negative: int, positive: int)
    requires ',' !in f0 && ',' !in code && ',' !in f3 && ',' !in f5 && ',' !in f7 && ',' !in f8
    ensures var fields := [f0, code, IntText(occurrences), f3, IntText(negative), f5, IntText(positive), f7, f8];
      Split(Join(fields, ','), ',') == fields
  {
    IntTextPlain(occurrences, ',');
    IntTextPlain(negative, ',');
    IntTextPlain(positive, ',');
    SplitJoin([f0, code, IntText(occurrences), f3, IntText(negative), f5, IntText(positive), f7, f8], ',');
  }

  /** Counts written as integers read back exactly. */
  lemma EmojiIntegerNumbers(f: seq<string>, occurrences: int, negative: int, positive: int)
    requires |f| == 9 && f[2] == IntText(occurrences) && f[4] == IntText(negative) && f[6] == IntText(positive)
    ensures ToNumber(f[2]) == Finite(occurrences, 0)
    ensures ToNumber(f[4]) == Finite(negative, 0)
    ensures ToNumber(f[6]) == Finite(positive, 0)
  {
    ToNumberIntText(occurrences);
    ToNumberIntText(negative);
    ToNumberIntText(positive);
  }

  /** An emoji row whose three counts are written as integers scores
      `floor(5 * (pos - neg) / occ)`, and assigns it to the decoded field 1 unless it
      is 0; a zero occurrence count assigns nothing. */
  lemma EmojiIntegerCounts(f0: string, code: string, f3: string, f5: string, f7: string, f8: string,
                           occurrences: int, negative: int, positive: int, decode: string -> string)
    requires ',' !in f0 && ',' !in code && ',' !in f3 && ',' !in f5 && ',' !in f7 && ',' !in f8
    ensures var line := Join([f0, code, IntText(occurrences), f3, IntText(negative), f5, IntText(positive), f7, f8], ',');
      EmojiRow(line, decode) ==
        if occurrences == 0 then []
        else
          var s := FloorDiv(5 * (positive - negative), occurrences);
          if s == 0 then [] else [Entry(decode(code), Finite(s, 0))]
  {
    var fields := [f0, code, IntText(occurrences), f3, IntText(negative), f5, IntText(positive), f7, f8];
    EmojiIntegerFields(f0, code, f3, f5, f7, f8, occurrences, negative, positive);
    EmojiIntegerNumbers(fields, occurrences, negative, positive);
    EmojiSentimentIntegers(occurrences, negative, positive);
  }

  /** A SentiWS line with three tab fields assigns `Math.floor(5 * parseFloat(weight))`,
      unless that is NaN or 0, to each comma piece of the forms and then to the
      lemma. */
  lemma SentiWSFields(head: string, weight: string, forms: string)
    requires '\t' !in head && '\t' !in weight && '\t' !in forms
    ensures SentiWSRow(head + "\t" + weight + "\t" + forms)
         == match Rescale(ParseFloat(weight))
            case None => []
            case Some(s) => if s == 0 then [] else AssignAll(Split(forms, ',') + [Split(head, '|')[0]], Finite(s, 0))
  {
    var fields := [head, weight, forms];
    var line := head + "\t" + weight + "\t" + forms;
    assert Join(fields, '\t') == line by {
      assert fields[1..] == [weight, forms] && fields[1..][1..] == [forms];
      assert Join([forms], '\t') == forms;
      assert Join([weight, forms], '\t') == weight + "\t" + forms;
    }
    SplitJoin(fields, '\t');
    assert Split(line, '\t') == fields;
  }

  /** SentiWS expansion: the line `word|tag<TAB>weight<TAB>form,form,...` assigns
      the sentiment of its weight to every form in order and then to `word`, with
      the POS tag dropped; a weight whose sentiment is NaN or 0 assigns nothing. */
  lemma SentiWSExpansion(word: string, tag: string, weight: string, forms: seq<string>)
    requires '|' !in word && '\t' !in word && '\t' !in tag && '\t' !in weight
    requires |forms| >= 1 && forall i :: 0 <= i < |forms| ==> ',' !in forms[i] && '\t' !in forms[i]
    ensures SentiWSRow(word + "|" + tag + "\t" + weight + "\t" + Join(forms, ','))
         == match Rescale(ParseFloat(weight))
            case None => []
            case Some(s) => if s == 0 then [] else AssignAll(forms + [word], Finite(s, 0))
  {
    JoinAvoids(forms, ',', '\t');
    SentiWSFields(word + "|" + tag, weight, Join(forms, ','));
    SplitFirst(word, tag, '|');
    assert word + "|" + tag == word + ['|'] + tag;
    SplitJoin(forms, ',');
  }

  lemma ScanPointEight()
    ensures ScanDecimal("0.8") == Some(Literal(Finite(8, 1), 3))
  {
    var t := "0.8";
    assert t[0..] == t;
    assert LeadingDigits(t[2..]) == 1 by { assert t[2..] == "8" && "8"[1..] == ""; }
    assert LeadingDigits(t) == 1 by { assert t[1..] == ".8"; }
    assert t[..1] + t[2..3] == "08";
    assert DigitsValue("08") == 8 by {
      assert "08"[..1] == "0" && "0"[..0] == "";
    }
  }

  /** The weight 0.8 reads as 8/10 and rescales to floor(5 * 0.8) = 4. */
  lemma ParsePointEight()
    ensures ParseFloat("0.8") == Finite(8, 1) && Rescale(Finite(8, 1)) == Some(4)
  {
    assert TrimStart("0.8") == "0.8";
    ScanPointEight();
    RescalePointEight();
  }

  lemma RescalePointEight()
    ensures Rescale(Finite(8, 1)) == Some(4)
  {
    assert Pow10(1) == 10;
  }

  lemma DigitsSmallWeight()
    ensures LeadingDigits("0040") == 4 && DigitsValue("00040") == 40
  {
    assert LeadingDigits("0") == 1 by { assert "0"[1..] == ""; }
    assert LeadingDigits("40") == 2 by { assert "40"[1..] == "0"; }
    assert LeadingDigits("040") == 3 by { assert "040"[1..] == "40"; }
    assert LeadingDigits("0040") == 4 by { assert "0040"[1..] == "040"; }
    assert DigitsValue("0") == 0 by { assert "0"[..0] == ""; }
    assert DigitsValue("00") == 0 by { assert "00"[..1] == "0"; }
    assert DigitsValue("000") == 0 by { assert "000"[..2] == "00"; }
    assert DigitsValue("0004") == 4 by { assert "0004"[..3] == "000"; }
    assert DigitsValue("00040") == 40 by { assert "00040"[..4] == "0004"; }
  }

  lemma ScanSmallWeight()
    ensures ScanDecimal("0.0040") == Some(Literal(Finite(40, 4), 6))
  {
    var t := "0.0040";
    assert t[0..] == t;
    DigitsSmallWeight();
    assert t[2..] == "0040";
    assert LeadingDigits(t) == 1 by { assert t[1..] == ".0040"; }
    assert t[..1] + t[2..6] == "00040";
  }

  /** The weight 0.0040, from the row quoted in the SentiWS reader's own comment,
      reads as 40/10000 and rescales to floor(5 * 0.004) = 0: such a row assigns
      nothing. */
  lemma ParseSmallWeight()
    ensures ParseFloat("0.0040") == Finite(40, 4) && Rescale(Finite(40, 4)) == Some(0)
  {
    assert TrimStart("0.0040") == "0.0040";
    ScanSmallWeight();
    RescaleSmallWeight();
  }

  lemma RescaleSmallWeight()
    ensures Rescale(Finite(40, 4)) == Some(0)
  {
    assert Pow10(4) == 10000;
  }

  /** A SentiWS row with an empty third field still assigns to the empty string,
      since splitting "" on ',' gives one empty piece; then to the lemma. */
  lemma SentiWSEmptyForms(line: string)
    requires var f := Split(line, '\t'); |f| == 3 && f[2] == ""
    requires SentiWSRow(line) != []
    ensures var ws := SentiWSRow(line);
      |ws| == 2 && ws[0].token == "" && ws[1].token == Split(Split(line, '\t')[0], '|')[0]
  {
    assert Split("", ',') == [""];
  }
}
