/** The order of the alternation in the scan itself: what is masked at a position is the longest match there. */
module RedactGreedy {
  import opened RedactPattern
  import opened RedactScan
  import opened RedactLongest
  import opened RedactKnown

  predicate SolidusFree(variants: set<string>) {
    forall v | v in variants :: '/' !in v
  }

  /** The rendering that a pattern of the alternation is compiled from. */
  lemma SourceOf(ps: seq<seq<Atom>>, variants: set<string>, i: nat) returns (v: string)
    requires Alternation(ps, variants) && SolidusFree(variants) && i < |ps|
    ensures v in variants && ps[i] == Compile(v, true) == Compile(v, false)
  {
    assert ps[i] in ps;
    v :| v in variants && ps[i] == Compile(v, true);
    CompilePlain(v);
  }

  /** The renderings in the order of their patterns. */
  lemma {:induction false} SourcesOf(ps: seq<seq<Atom>>, variants: set<string>, n: nat) returns (vs: seq<string>)
    requires Alternation(ps, variants) && SolidusFree(variants) && n <= |ps|
    ensures |vs| == n && forall i | 0 <= i < n :: ps[i] == Compile(vs[i], false)
  {
    if n == 0 {
      vs := [];
    } else {
      vs := SourcesOf(ps, variants, n - 1);
      var v := SourceOf(ps, variants, n - 1);
      vs := vs + [v];
    }
  }

  /**
   Where no rendering holds a solidus: the scan has a match wherever some rendering matches, and
   what it masks there is at least as long as any match of any rendering.
   */
  lemma ScanTakesLongest(ps: seq<seq<Atom>>, variants: set<string>, text: string, i: nat, v: string)
    requires Alternation(ps, variants) && SolidusFree(variants) && v in variants && i < |text|
    requires MatchLen(Compile(v, true), text[i..]).Some?
    ensures i in HitsOf(ps, text) && HitsOf(ps, text)[i] >= MatchLen(Compile(v, true), text[i..]).value
  {
    var vs := SourcesOf(ps, variants, |ps|);
    assert CompileAll(vs) == ps;
    assert Compile(v, true) in ps;
    var k :| 0 <= k < |ps| && ps[k] == Compile(v, true);
    assert LongestSourceFirst(vs) by {
      forall a, b | 0 <= a < b < |vs| ensures Weight(vs[a]) >= Weight(vs[b]) {
        assert SourceLen(ps[a]) >= SourceLen(ps[b]);
      }
    }
    FirstIsLongest(vs, text[i..], k);
  }
}
