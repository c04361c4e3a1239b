/** Equalities of sequences that the verifier does not find on its own. */
module Seqs {
  lemma HeadTailConcat<T>(xs: seq<T>, ys: seq<T>)
    requires xs != []
    ensures [xs[0]] + (xs[1..] + ys) == xs + ys
    ensures (xs + ys)[0] == xs[0] && (xs + ys)[1..] == xs[1..] + ys
    ensures xs[1..] != [] ==> xs[1..][|xs| - 2] == xs[|xs| - 1]
  {
  }

  lemma Bracketed<T>(open: T, xs: seq<T>, close: T, rest: seq<T>)
    ensures ([open] + xs + [close]) + rest == [open] + (xs + ([close] + rest))
  {
  }

  lemma Enclosed<T>(before: seq<T>, open: T, xs: seq<T>, close: T)
    ensures ((before + [open]) + xs) + [close] == before + ([open] + xs + [close])
  {
  }

  lemma Associative4<T>(a: seq<T>, b: seq<T>, c: seq<T>, d: seq<T>)
    ensures a + (b + c + d) == ((a + b) + c) + d
  {
  }

  lemma Parts<T>(a: seq<T>, c: T, b: seq<T>)
    ensures var s := a + ([c] + b);
            |s| == |a| + 1 + |b| && s[|a|] == c && s[..|a|] == a && s[|a| + 1..] == b
  {
  }

  lemma Associative<T>(xs: seq<T>, ys: seq<T>, zs: seq<T>)
    ensures (xs + ys) + zs == xs + (ys + zs)
  {
  }
}
