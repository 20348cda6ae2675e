/** What the two `generate_next` worklists (src/itemset/lr_zero.rs, src/itemset/lr_one.rs) share:
    rows of `ordering_map`, symbols iterated in order, and the collection of sets growing at its end. */
module Worklist {
  import opened Syntax

  /** Every symbol written in some output. */
  ghost function AllSymbols(rules: seq<Rule>): set<MixedChar> {
    set k: nat, j: nat | k < |rules| && j < |rules[k].output| :: rules[k].output[j]
  }

  /** The symbols the dot of a kernel item can stand before: any but the first of an output, where
      only a shift can bring a dot, and the first of rule 0, where the start item's dot stands. */
  ghost function KernelSymbols(rules: seq<Rule>): set<MixedChar> {
    set k: nat, j: nat | k < |rules| && j < |rules[k].output| && (1 <= j || k == 0) :: rules[k].output[j]
  }

  /** The symbols of a row of `ordering_map`. */
  function Labels(row: seq<(MixedChar, nat)>): (r: seq<MixedChar>)
    ensures |r| == |row|
    ensures forall p :: 0 <= p < |row| ==> r[p] == row[p].0
  {
    seq(|row|, p requires 0 <= p < |row| => row[p].0)
  }

  lemma LabelsSnoc(row: seq<(MixedChar, nat)>, c: MixedChar, n: nat)
    ensures Labels(row + [(c, n)]) == Labels(row) + [c]
  {
    assert Labels(row + [(c, n)]) == Labels(row) + [c];
  }

  /** The symbols of `cs` that lie in `keep`, in the order of `cs`. */
  function Kept(cs: seq<MixedChar>, keep: set<MixedChar>): seq<MixedChar> {
    if cs == [] then []
    else
      var c := cs[|cs| - 1];
      Kept(cs[..|cs| - 1], keep) + if c in keep then [c] else []
  }

  /** Taking one more symbol of `cs` keeps it exactly when it lies in `keep`. */
  lemma KeptStep(cs: seq<MixedChar>, p: nat, keep: set<MixedChar>)
    requires p < |cs|
    ensures Kept(cs[..p + 1], keep) == Kept(cs[..p], keep) + if cs[p] in keep then [cs[p]] else []
  {
    assert cs[..p + 1][..p] == cs[..p];
  }

  /** `Kept` keeps the order of `cs` and exactly the symbols of `keep`. */
  lemma {:induction false} KeptInOrder(cs: seq<MixedChar>, keep: set<MixedChar>)
    requires InOrder(cs)
    ensures InOrder(Kept(cs, keep))
    ensures forall c :: c in Kept(cs, keep) <==> c in cs && c in keep
  {
    if cs != [] {
      var init, c := cs[..|cs| - 1], cs[|cs| - 1];
      assert cs == init + [c];
      KeptInOrder(init, keep);
      var m := Kept(init, keep);
      forall i | 0 <= i < |m| ensures MixedLess(m[i], c) {
        assert m[i] in init;
        var k :| 0 <= k < |init| && init[k] == m[i];
        assert cs[k] == init[k];
      }
    }
  }

  /** A map whose keys lie in `u` has at most `|u|` of them. */
  lemma {:induction false} KeysBound<T>(u: set<T>, maps: map<T, nat>)
    requires maps.Keys <= u
    ensures |maps| <= |u|
  {
    if maps != map[] {
      var x :| x in maps;
      KeysBound(u - {x}, maps - {x});
      assert (maps - {x}).Keys == maps.Keys - {x};
    }
  }

  /** Pushing sets leaves the ones already there in place. */
  lemma PrefixKept<T>(sets: seq<T>, sets': seq<T>, n0: nat, index: nat)
    requires n0 < |sets| && index < |sets| && |sets| <= |sets'| && sets'[..|sets|] == sets
    ensures sets'[n0] == sets[n0] && sets'[index] == sets[index]
    ensures forall i :: 0 <= i < |sets| ==> sets'[i] == sets[i]
  {
    forall i | 0 <= i < |sets| ensures sets'[i] == sets[i] {
      assert sets'[..|sets|][i] == sets[i];
    }
  }

  /** A prefix `base + [first]` splits into `base` and the element at `|base|`. */
  lemma SnocPrefix<T>(base: seq<T>, first: T, sets: seq<T>)
    requires |base| < |sets| && sets[..|base| + 1] == base + [first]
    ensures sets[..|base|] == base && sets[|base|] == first
  {
    assert sets[..|base|] == sets[..|base| + 1][..|base|];
    assert sets[|base|] == sets[..|base| + 1][|base|];
  }

  /** A prefix of a prefix. */
  lemma PrefixTrans<T>(a: seq<T>, b: seq<T>, c: seq<T>)
    requires |a| <= |b| <= |c| && b[..|a|] == a && c[..|b|] == b
    ensures c[..|a|] == a
  {
    assert c[..|a|] == c[..|b|][..|a|];
  }
}
