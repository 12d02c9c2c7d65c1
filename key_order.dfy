/** The order sort keys are compared by: JavaScript `<` on strings, which is
    lexicographic with a proper prefix first.  Characters are compared by
    code point; fractional-indexing keys are ASCII, where this agrees with
    the UTF-16 code-unit order JavaScript uses. */
module KeyOrder {
  import opened Helper

  /** `a < b` on strings. */
  predicate Less(a: string, b: string)
    decreases |a|
  {
    if |b| == 0 then false
    else if |a| == 0 then true
    else if a[0] != b[0] then a[0] < b[0]
    else Less(a[1..], b[1..])
  }

  /** The position-based reading of the order: `a` and `b` agree up to `i`,
      and there `a` has ended while `b` goes on, or `a`'s character is smaller. */
  ghost predicate DiffersFirstAt(a: string, b: string, i: nat) {
    i <= |a| && i <= |b| && a[..i] == b[..i] &&
    ((i == |a| && i < |b|) || (i < |a| && i < |b| && a[i] < b[i]))
  }

  /** The recursive definition and the position-based one agree. */
  lemma {:induction false} LessIffDiffersFirst(a: string, b: string)
    ensures Less(a, b) <==> exists i: nat :: DiffersFirstAt(a, b, i)
  {
    if |a| == 0 || |b| == 0 {
      if Less(a, b) {
        assert DiffersFirstAt(a, b, 0);
      }
    } else if a[0] != b[0] {
      if Less(a, b) {
        assert DiffersFirstAt(a, b, 0);
      }
      forall i: nat | DiffersFirstAt(a, b, i) ensures Less(a, b) {
        if i > 0 {
          assert a[..i][0] == b[..i][0];
        }
      }
    } else {
      LessIffDiffersFirst(a[1..], b[1..]);
      if Less(a, b) {
        var i: nat :| DiffersFirstAt(a[1..], b[1..], i);
        assert a[..i + 1] == [a[0]] + a[1..][..i];
        assert b[..i + 1] == [b[0]] + b[1..][..i];
        assert DiffersFirstAt(a, b, i + 1);
      }
      forall i: nat | DiffersFirstAt(a, b, i) ensures Less(a, b) {
        assert i > 0;
        assert a[1..][..i - 1] == a[..i][1..];
        assert b[1..][..i - 1] == b[..i][1..];
        assert DiffersFirstAt(a[1..], b[1..], i - 1);
      }
    }
  }

  lemma {:induction false} LessIrreflexive(a: string)
    ensures !Less(a, a)
  {
    if |a| > 0 {
      LessIrreflexive(a[1..]);
    }
  }

  lemma {:induction false} LessTransitive(a: string, b: string, c: string)
    requires Less(a, b) && Less(b, c)
    ensures Less(a, c)
  {
    if |a| > 0 && a[0] == b[0] && b[0] == c[0] {
      LessTransitive(a[1..], b[1..], c[1..]);
    }
  }

  /** Any two keys are equal or ordered one way. */
  lemma {:induction false} LessTotal(a: string, b: string)
    ensures a == b || Less(a, b) || Less(b, a)
  {
    if |a| > 0 && |b| > 0 && a[0] == b[0] {
      LessTotal(a[1..], b[1..]);
      if a[1..] == b[1..] {
        assert a == [a[0]] + a[1..] && b == [b[0]] + b[1..];
      }
    }
  }

  lemma LessAsymmetric(a: string, b: string)
    requires Less(a, b)
    ensures !Less(b, a)
  {
    if Less(b, a) {
      LessTransitive(a, b, a);
      LessIrreflexive(a);
    }
  }

  /** `before < key < after`, each bound only when present. */
  predicate Between(before: Option<string>, key: string, after: Option<string>) {
    (before.Some? ==> Less(before.value, key)) && (after.Some? ==> Less(key, after.value))
  }

  /** No key lies strictly between `before` and `after` unless `before < after`. */
  lemma BetweenNeedsOrderedBounds(before: string, key: string, after: string)
    requires Between(Some(before), key, Some(after))
    ensures Less(before, after)
  {
    LessTransitive(before, key, after);
  }
}
