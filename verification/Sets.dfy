// Counting with finite sets of numbers.
module Sets {
  function Members(ch: seq<nat>): set<nat> { set p | p in ch }

  lemma DistinctSize(ch: seq<nat>)
    requires forall i, j | 0 <= i < j < |ch| :: ch[i] != ch[j]
    ensures |Members(ch)| == |ch|
  {
    if ch != [] {
      var rest := ch[..|ch| - 1];
      assert ch == rest + [ch[|ch| - 1]];
      assert Members(ch) == Members(rest) + {ch[|ch| - 1]};
      DistinctSize(rest);
    }
  }

  ghost function Below(n: nat): (r: set<nat>)
    ensures |r| == n && forall p: nat :: p in r <==> p < n
  {
    if n == 0 then {} else Below(n - 1) + {n - 1}
  }

  lemma SubsetSize(a: set<nat>, b: set<nat>)
    requires a <= b
    ensures |a| <= |b| && (|a| == |b| ==> a == b)
  {
    assert b == a + (b - a);
  }
}
