/** The worked rows of the lexicon build, each taken through the readers' own
    definitions. */
module Samples {
  import opened Text
  import opened JsNumbers
  import opened Merge
  import opened Rows

  /** `gut|ADJ<TAB>0.8<TAB>besser,best` gives floor(5 * 0.8) = 4 to "besser", "best"
      and "gut", in that order. */
  lemma SentiWSGut()
    ensures SentiWSRow("gut|ADJ\t0.8\tbesser,best")
         == [Entry("besser", Finite(4, 0)), Entry("best", Finite(4, 0)), Entry("gut", Finite(4, 0))]
  {
    var forms := ["besser", "best"];
    assert Join(forms, ',') == "besser,best" by {
      assert forms[1..] == ["best"];
    }
    SentiWSExpansion("gut", "ADJ", "0.8", forms);
    ParsePointEight();
    GutLine();
    GutEntries();
  }

  lemma GutLine()
    ensures "gut" + "|" + "ADJ" + "\t" + "0.8" + "\t" + "besser,best" == "gut|ADJ\t0.8\tbesser,best"
  {
  }

  lemma GutEntries()
    ensures AssignAll(["besser", "best"] + ["gut"], Finite(4, 0))
         == [Entry("besser", Finite(4, 0)), Entry("best", Finite(4, 0)), Entry("gut", Finite(4, 0))]
  {
    var ws := AssignAll(["besser", "best"] + ["gut"], Finite(4, 0));
    assert |ws| == 3;
  }

  /** `happy<TAB>3` gives "happy" the score 3. */
  lemma AfinnHappy()
    ensures AfinnRow("happy\t3") == [Entry("happy", Finite(3, 0))]
  {
    assert IntText(3) == "3" by {
      assert NatText(3) == ['0' + 3 as char];
    }
    AfinnVerbatim("happy", 3);
    assert "happy" + "\t" + "3" == "happy\t3";
  }

  lemma SmallTexts()
    ensures IntText(10) == "10" && IntText(80) == "80" && IntText(100) == "100"
  {
    assert NatText(1) == "1" && NatText(8) == "8";
    assert NatText(10) == "10";
    assert NatText(80) == "80";
    assert NatText(100) == "100";
  }

  /** An emoji seen 100 times, 10 times in a negative and 80 times in a positive
      context, scores floor(5 * (80/100 - 10/100)) = floor(3.5) = 3, whatever the
      other columns hold. */
  lemma EmojiGrinning(f0: string, code: string, f3: string, f5: string, f7: string, f8: string,
                      decode: string -> string)
    requires ',' !in f0 && ',' !in code && ',' !in f3 && ',' !in f5 && ',' !in f7 && ',' !in f8
    ensures EmojiRow(Join([f0, code, "100", f3, "10", f5, "80", f7, f8], ','), decode)
         == [Entry(decode(code), Finite(3, 0))]
  {
    SmallTexts();
    EmojiIntegerCounts(f0, code, f3, f5, f7, f8, 100, 10, 80, decode);
    GrinningScore();
  }

  /** floor(5 * (80 - 10) / 100) = floor(3.5) = 3. */
  lemma GrinningScore()
    ensures FloorDiv(5 * (80 - 10), 100) == 3
  {
  }
}
