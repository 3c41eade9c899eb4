/** Sizes of finite sets. */
module FiniteSets {
  lemma {:induction false} SubsetSize<T>(a: set<T>, b: set<T>)
    requires a <= b
    ensures |a| <= |b|
  {
    if x :| x in a {
      SubsetSize(a - {x}, b - {x});
    }
  }

  /** One more element seen leaves one fewer to see. */
  lemma OneFewer<T>(all: set<T>, seen: set<T>, t: T)
    requires t in all && t !in seen
    ensures all - (seen + {t}) < all - seen
    ensures |all - (seen + {t})| == |all - seen| - 1
  {
    assert t in all - seen;
    assert all - seen == (all - (seen + {t})) + {t};
  }

  lemma SeenMore<T>(all: set<T>, seen: set<T>, more: set<T>)
    requires more <= all
    ensures |all - (seen + more)| + |more - seen| == |all - seen|
  {
    assert all - seen == (all - (seen + more)) + (more - seen);
  }

  /** A sequence has at most as many elements as positions, and as many if it repeats none. */
  lemma {:induction false} ElementsSize<T>(s: seq<T>)
    ensures |set x | x in s| <= |s|
  {
    if s != [] {
      var n := |s| - 1;
      ElementsSize(s[..n]);
      assert s == s[..n] + [s[n]];
      assert (set x | x in s) == (set x | x in s[..n]) + {s[n]};
    }
  }

  lemma {:induction false} DistinctSize<T>(s: seq<T>)
    requires forall i, j :: 0 <= i < j < |s| ==> s[i] != s[j]
    ensures |set x | x in s| == |s|
  {
    if s != [] {
      var n := |s| - 1;
      DistinctSize(s[..n]);
      assert s == s[..n] + [s[n]];
      assert (set x | x in s) == (set x | x in s[..n]) + {s[n]};
    }
  }
}
