/** The result hash the build fills in, and the one way it is ever changed:
    `hash[token] = score`, one assignment after another. */
module Merge {
  import opened JsNumbers

  /** One assignment `hash[token] = score`. */
  datatype Entry = Entry(token: string, score: Number)

  /** The result hash: token to score. */
  type Hash = map<string, Number>

  /** The keys a sequence of assignments names. */
  function Tokens(ws: seq<Entry>): set<string>
  {
    set i | 0 <= i < |ws| :: ws[i].token
  }

  /** No later assignment in `ws` names the token of `ws[i]`. */
  predicate Latest(ws: seq<Entry>, i: int)
    requires 0 <= i < |ws|
  {
    forall j :: i < j < |ws| ==> ws[j].token != ws[i].token
  }

  /** Every score assigned is a number other than 0 (and not NaN). */
  predicate NonzeroScores(ws: seq<Entry>)
  {
    forall j :: 0 <= j < |ws| ==> ws[j].score.Finite? && !ws[j].score.IsZero()
  }

  /** The hash after performing the assignments `ws` in order, starting from `h`:
      its keys grow by exactly the tokens named, and none is removed. */
  function Store(h: Hash, ws: seq<Entry>): (r: Hash)
    ensures r.Keys == h.Keys + Tokens(ws)
    decreases |ws|
  {
    if ws == [] then h
    else
      TokensSnoc(ws);
      Store(h, ws[..|ws| - 1])[ws[|ws| - 1].token := ws[|ws| - 1].score]
  }

  lemma TokensSnoc(ws: seq<Entry>)
    requires ws != []
    ensures Tokens(ws) == Tokens(ws[..|ws| - 1]) + {ws[|ws| - 1].token}
  {
    var init := ws[..|ws| - 1];
    forall k | k in Tokens(ws) ensures k in Tokens(init) + {ws[|ws| - 1].token} {
      var i :| 0 <= i < |ws| && ws[i].token == k;
      if i < |ws| - 1 { assert init[i] == ws[i]; }
    }
    forall k | k in Tokens(init) ensures k in Tokens(ws) {
      var i :| 0 <= i < |init| && init[i].token == k;
      assert ws[i] == init[i];
    }
  }

  /** A key the assignments do not name keeps its value, or stays absent. */
  lemma {:induction false} StoreFrame(h: Hash, ws: seq<Entry>, k: string)
    requires k !in Tokens(ws)
    ensures k in Store(h, ws) <==> k in h
    ensures k in h ==> Store(h, ws)[k] == h[k]
    decreases |ws|
  {
    if ws != [] {
      TokensSnoc(ws);
      StoreFrame(h, ws[..|ws| - 1], k);
    }
  }

  /** The last assignment to a key decides its value. */
  lemma {:induction false} StoreLatest(h: Hash, ws: seq<Entry>, i: nat)
    requires i < |ws| && Latest(ws, i)
    ensures ws[i].token in Store(h, ws) && Store(h, ws)[ws[i].token] == ws[i].score
    decreases |ws|
  {
    var init := ws[..|ws| - 1];
    if i < |ws| - 1 {
      assert init[i] == ws[i];
      assert Latest(init, i);
      StoreLatest(h, init, i);
    }
  }

  /** Performing two runs of assignments one after the other is performing their
      concatenation. */
  lemma {:induction false} StoreAppend(h: Hash, a: seq<Entry>, b: seq<Entry>)
    ensures Store(h, a + b) == Store(Store(h, a), b)
    decreases |b|
  {
    if b == [] {
      assert a + b == a;
    } else {
      assert (a + b)[..|a + b| - 1] == a + b[..|b| - 1];
      StoreAppend(h, a, b[..|b| - 1]);
    }
  }

  /** Once a run of assignments names a key, what the hash held before does not
      matter for that key: the run decides it. */
  lemma {:induction false} StoreOverrides(h1: Hash, h2: Hash, ws: seq<Entry>, k: string)
    requires k in Tokens(ws)
    ensures k in Store(h1, ws) && k in Store(h2, ws)
    ensures Store(h1, ws)[k] == Store(h2, ws)[k]
    decreases |ws|
  {
    var init := ws[..|ws| - 1];
    if ws[|ws| - 1].token != k {
      var i :| 0 <= i < |ws| && ws[i].token == k;
      assert init[i] == ws[i];
      StoreOverrides(h1, h2, init, k);
    }
  }

  lemma TokensAppend(a: seq<Entry>, b: seq<Entry>)
    ensures Tokens(a + b) == Tokens(a) + Tokens(b)
  {
    forall k | k in Tokens(a + b) ensures k in Tokens(a) + Tokens(b) {
      var i :| 0 <= i < |a + b| && (a + b)[i].token == k;
      if i < |a| { assert a[i] == (a + b)[i]; } else { assert b[i - |a|] == (a + b)[i]; }
    }
    forall k | k in Tokens(a) ensures k in Tokens(a + b) {
      var i :| 0 <= i < |a| && a[i].token == k;
      assert (a + b)[i] == a[i];
    }
    forall k | k in Tokens(b) ensures k in Tokens(a + b) {
      var i :| 0 <= i < |b| && b[i].token == k;
      assert (a + b)[|a| + i] == b[i];
    }
  }

  /** Every key a run of assignments names has a last assignment, whose score is the
      one the hash ends up holding. */
  lemma {:induction false} LastAssignment(h: Hash, ws: seq<Entry>, k: string) returns (i: nat)
    requires k in Tokens(ws)
    ensures i < |ws| && ws[i].token == k && Latest(ws, i)
    ensures k in Store(h, ws) && Store(h, ws)[k] == ws[i].score
    decreases |ws|
  {
    var init := ws[..|ws| - 1];
    if ws[|ws| - 1].token == k {
      i := |ws| - 1;
    } else {
      var i0 :| 0 <= i0 < |ws| && ws[i0].token == k;
      assert init[i0] == ws[i0];
      i := LastAssignment(h, init, k);
      assert init[i] == ws[i];
      forall q | i < q < |ws| ensures ws[q].token != k {
        if q < |ws| - 1 { assert init[q] == ws[q]; }
      }
    }
  }

  /** Two runs of assignments one after the other: a key the second run names
      holds what the second run alone gives it; any other key is as the first run
      left it. */
  lemma SuffixDecides(h: Hash, a: seq<Entry>, b: seq<Entry>, k: string)
    ensures k in Tokens(b) ==> k in Store(h, a + b) && k in Store(map[], b) && Store(h, a + b)[k] == Store(map[], b)[k]
    ensures k !in Tokens(b) ==> (k in Store(h, a + b) <==> k in Store(h, a))
    ensures k !in Tokens(b) && k in Store(h, a) ==> Store(h, a + b)[k] == Store(h, a)[k]
  {
    StoreAppend(h, a, b);
    if k in Tokens(b) {
      StoreOverrides(Store(h, a), map[], b, k);
    } else {
      StoreFrame(Store(h, a), b, k);
    }
  }

  /** Assignments of nonzero numbers only ever leave a nonzero number behind. */
  lemma NonzeroStored(ws: seq<Entry>, k: string)
    requires NonzeroScores(ws) && k in Tokens(ws)
    ensures k in Store(map[], ws)
    ensures Store(map[], ws)[k].Finite? && !Store(map[], ws)[k].IsZero()
  {
    var i := LastAssignment(map[], ws, k);
  }

  /** One more assignment is one more map update. */
  lemma StoreStep(h: Hash, ws: seq<Entry>, j: nat)
    requires j < |ws|
    ensures Store(h, ws[..j + 1]) == Store(h, ws[..j])[ws[j].token := ws[j].score]
  {
    assert ws[..j + 1][..j] == ws[..j];
  }

  /** A single assignment is a single map update. */
  lemma StoreSingle(h: Hash, e: Entry)
    ensures Store(h, [e]) == h[e.token := e.score]
  {
    assert [e][..0] == [];
  }

  /** Four runs of assignments, the last two made together, are their concatenation. */
  lemma StoreChain(h: Hash, e: seq<Entry>, a: seq<Entry>, p: seq<Entry>, n: seq<Entry>)
    ensures Store(Store(Store(h, e), a), p + n) == Store(h, e + a + p + n)
  {
    var ea := e + a;
    var pn := p + n;
    assert e + a + p + n == ea + pn;
    StoreAppend(h, e, a);
    StoreAppend(h, ea, pn);
  }
}
