/** Facts about sequences that several components use. */
module Sequences {

  /** The positions in `b` at which `a`, in order, is to be found. */
  ghost predicate Embeds<T>(at: seq<nat>, a: seq<T>, b: seq<T>) {
    && |at| == |a|
    && (forall i :: 0 <= i < |at| ==> at[i] < |b| && b[at[i]] == a[i])
    && (forall i, j :: 0 <= i < j < |at| ==> at[i] < at[j])
  }

  /** `a` is `b` with some elements left out. */
  ghost predicate Subsequence<T>(a: seq<T>, b: seq<T>) {
    exists at :: Embeds(at, a, b)
  }

  lemma {:induction false} SubsequenceSelf<T>(s: seq<T>)
    ensures Subsequence(s, s)
  {
    assert Embeds(seq(|s|, i => i), s, s);
  }

  lemma {:induction false} SubsequenceEmpty<T>(s: seq<T>)
    ensures Subsequence([], s)
  {
    assert Embeds([], [], s);
  }

  lemma {:induction false} SubsequenceAppend<T>(a: seq<T>, b: seq<T>, c: seq<T>, d: seq<T>)
    requires Subsequence(a, b) && Subsequence(c, d)
    ensures Subsequence(a + c, b + d)
  {
    var f :| Embeds(f, a, b);
    var g :| Embeds(g, c, d);
    var h := f + seq(|g|, i requires 0 <= i < |g| => |b| + g[i]);
    assert Embeds(h, a + c, b + d);
  }

  lemma {:induction false} SubsequenceTransitive<T>(a: seq<T>, b: seq<T>, c: seq<T>)
    requires Subsequence(a, b) && Subsequence(b, c)
    ensures Subsequence(a, c)
  {
    var f :| Embeds(f, a, b);
    var g :| Embeds(g, b, c);
    var h := seq(|f|, i requires 0 <= i < |f| => g[f[i]]);
    assert Embeds(h, a, c);
  }

  lemma {:induction false} SubsequenceDrop<T>(front: seq<T>, x: T, back: seq<T>)
    ensures Subsequence(front + back, front + [x] + back)
  {
    var at := seq(|front + back|, i => if i < |front| then i else i + 1);
    assert Embeds(at, front + back, front + [x] + back);
  }

  lemma {:induction false} SubsequenceElements<T>(a: seq<T>, b: seq<T>)
    requires Subsequence(a, b)
    ensures |a| <= |b| && forall x :: x in a ==> x in b
  {
    var f :| Embeds(f, a, b);
    if |a| > 0 {
      EmbeddingGrows(f, a, b, |a| - 1);
    }
  }

  lemma {:induction false} EmbeddingGrows<T>(at: seq<nat>, a: seq<T>, b: seq<T>, i: nat)
    requires Embeds(at, a, b) && i < |at|
    ensures i <= at[i]
  {
    if i > 0 {
      EmbeddingGrows(at, a, b, i - 1);
    }
  }

  lemma {:induction false} Associative<T>(a: seq<T>, b: seq<T>, c: seq<T>)
    ensures a + (b + c) == a + b + c
  {
  }
}
