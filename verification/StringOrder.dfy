/** The order of `strcmp` on NUL-free C strings: lexicographic on (unsigned) bytes. */
module StringOrder {
  predicate Less(a: string, b: string) {
    if b == "" then false
    else if a == "" then true
    else a[0] < b[0] || (a[0] == b[0] && Less(a[1..], b[1..]))
  }

  lemma {:induction false} Irreflexive(a: string)
    ensures !Less(a, a)
  {
    if a != "" {
      Irreflexive(a[1..]);
    }
  }

  lemma {:induction false} Trichotomy(a: string, b: string)
    ensures Less(a, b) || a == b || Less(b, a)
    ensures !(Less(a, b) && Less(b, a))
  {
    if a != "" && b != "" {
      Trichotomy(a[1..], b[1..]);
      assert a == [a[0]] + a[1..] && b == [b[0]] + b[1..];
    }
  }

  lemma {:induction false} Transitive(a: string, b: string, c: string)
    requires Less(a, b) && Less(b, c)
    ensures Less(a, c)
  {
    if a != "" && a[0] == b[0] == c[0] {
      Transitive(a[1..], b[1..], c[1..]);
    }
  }

  // The texts agree up to k, where the first one ends or has the smaller byte.
  predicate DiffersAt(a: string, b: string, k: nat) {
    k <= |a| && k < |b| && a[..k] == b[..k] && (k == |a| || a[k] < b[k])
  }

  lemma {:induction false} LessExact(a: string, b: string)
    ensures Less(a, b) <==> exists k :: DiffersAt(a, b, k)
  {
    if b != "" {
      if a == "" {
        assert DiffersAt(a, b, 0);
      } else if a[0] == b[0] {
        LessExact(a[1..], b[1..]);
        DiffersBehind(a, b);
      } else if a[0] < b[0] {
        assert DiffersAt(a, b, 0);
      } else {
        forall k: nat ensures !DiffersAt(a, b, k) {
          NotBehind(a, b, k);
        }
      }
    }
  }

  lemma NotBehind(a: string, b: string, k: nat)
    requires a != "" && b != ""
    ensures DiffersAt(a, b, k) ==> a[0] <= b[0]
  {
    if DiffersAt(a, b, k) && k > 0 {
      assert a[0] == a[..k][0] && b[0] == b[..k][0];
    }
  }

  lemma DiffersBehind(a: string, b: string)
    requires a != "" && b != "" && a[0] == b[0]
    ensures (exists k :: DiffersAt(a, b, k)) <==> exists k :: DiffersAt(a[1..], b[1..], k)
  {
    forall k: nat | DiffersAt(a, b, k) ensures k > 0 && DiffersAt(a[1..], b[1..], k - 1) {
      assert a[1..][..k - 1] == a[..k][1..] && b[1..][..k - 1] == b[..k][1..];
    }
    forall k: nat | DiffersAt(a[1..], b[1..], k) ensures DiffersAt(a, b, k + 1) {
      assert a[..k + 1] == [a[0]] + a[1..][..k] && b[..k + 1] == [b[0]] + b[1..][..k];
    }
  }
}
