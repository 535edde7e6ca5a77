/**
 * The less-than comparer of the filter language (`ltComparer.Compare`): a
 * predicate over two untyped values that dispatches on the left value's
 * dynamic type, fails closed on a type mismatch, and quantifies
 * existentially over the elements of a left-hand array.
 */
module LtComparer {
  import opened Values

  /**
   * Go's `<` on strings: byte-wise lexicographic order of the UTF-8
   * encodings, which for valid UTF-8 is the lexicographic order of the
   * code points.
   */
  function StrLess(a: string, b: string): (r: bool)
    ensures r ==> a != b
  {
    if a == [] then b != []
    else if b == [] then false
    else if a[0] != b[0] then a[0] < b[0]
    else StrLess(a[1..], b[1..])
  }

  /**
   * `ltComparer.Compare(a, b)`: different dynamic types give false unless `a`
   * is an array; strings, float64 numbers and timestamps compare by their
   * own order; an array `a` holds when some element is less than `b`; every
   * other type (int, bool, nil, map) gives false.
   */
  function Compare(a: Value, b: Value): (r: bool)
    ensures !a.Arr? && KindOf(a) != KindOf(b) ==> !r
    ensures (a.Int? || a.Bool? || a.Nil? || a.Obj?) ==> !r
    ensures r ==> !b.Arr?
    decreases a
  {
    if KindOf(a) != KindOf(b) && !a.Arr? then false
    else
      match a
      case Str(x) => StrLess(x, b.s)
      case Num(x) => x < b.n
      case Time(t) => t < b.instant
      case Arr(items) => AnyCompare(items, b)
      case _ => false
  }

  /** `util.Any(items, func(item any) bool { return Compare(item, b) })`. */
  function AnyCompare(items: seq<Value>, b: Value): (r: bool)
    ensures items == [] ==> !r
    ensures r ==> !b.Arr?
    decreases items
  {
    if items == [] then false else Compare(items[0], b) || AnyCompare(items[1..], b)
  }

  /** The values an array bottoms out in: its scalar elements, depth first. */
  function Leaves(a: Value): (r: seq<Value>)
    ensures forall x :: x in r ==> !x.Arr?
    decreases a
  {
    match a
    case Arr(items) => LeavesOf(items)
    case _ => [a]
  }

  function LeavesOf(items: seq<Value>): (r: seq<Value>)
    ensures forall x :: x in r ==> !x.Arr?
    decreases items
  {
    if items == [] then [] else Leaves(items[0]) + LeavesOf(items[1..])
  }

  // ---------------------------------------------------------------------
  // Strings

  lemma {:induction false} StrLessIrreflexive(a: string)
    ensures !StrLess(a, a)
    decreases |a|
  {
    if a != [] {
      StrLessIrreflexive(a[1..]);
    }
  }

  lemma {:induction false} StrLessTransitive(a: string, b: string, c: string)
    requires StrLess(a, b) && StrLess(b, c)
    ensures StrLess(a, c)
    decreases |a|
  {
    if a != [] && a[0] == b[0] && b[0] == c[0] {
      StrLessTransitive(a[1..], b[1..], c[1..]);
    }
  }

  /** Go's string order is total: exactly one of `a < b`, `b < a`, `a == b`. */
  lemma {:induction false} StrLessTrichotomy(a: string, b: string)
    ensures StrLess(a, b) || StrLess(b, a) || a == b
    ensures !(StrLess(a, b) && StrLess(b, a))
    ensures a == b ==> !StrLess(a, b)
    decreases |a|
  {
    if a != [] && b != [] && a[0] == b[0] {
      StrLessTrichotomy(a[1..], b[1..]);
      if a[1..] == b[1..] {
        assert a == [a[0]] + a[1..] && b == [b[0]] + b[1..];
      }
    }
  }

  /**
   * StrLess against its textbook definition: `a` is a proper prefix of `b`,
   * or the first position where they differ holds a smaller character in `a`.
   */
  predicate LexLess(a: string, b: string) {
    (|a| < |b| && a == b[..|a|]) ||
    exists k :: 0 <= k < |a| && k < |b| && a[..k] == b[..k] && a[k] < b[k]
  }

  lemma {:induction false} StrLessIsLexicographic(a: string, b: string)
    ensures StrLess(a, b) <==> LexLess(a, b)
    decreases |a|
  {
    if a == [] || b == [] {
    } else if a[0] != b[0] {
      if a[0] < b[0] {
        assert a[..0] == b[..0];
      }
    } else {
      StrLessIsLexicographic(a[1..], b[1..]);
      var a', b' := a[1..], b[1..];
      if LexLess(a', b') {
        if |a'| < |b'| && a' == b'[..|a'|] {
          assert a == [a[0]] + a' && b[..|a|] == [b[0]] + b'[..|a'|];
        } else {
          var k :| 0 <= k < |a'| && k < |b'| && a'[..k] == b'[..k] && a'[k] < b'[k];
          assert a[..k + 1] == [a[0]] + a'[..k] && b[..k + 1] == [b[0]] + b'[..k];
          assert a[k + 1] < b[k + 1];
        }
      }
      if LexLess(a, b) {
        if |a| < |b| && a == b[..|a|] {
          assert a' == b'[..|a'|];
        } else {
          var k :| 0 <= k < |a| && k < |b| && a[..k] == b[..k] && a[k] < b[k];
          assert k != 0;
          assert a'[..k - 1] == a[1..k] == b[1..k] == b'[..k - 1];
          assert a'[k - 1] < b'[k - 1];
        }
      }
    }
  }

  // ---------------------------------------------------------------------
  // Type dispatch

  /** A left value that is not an array fails closed on any other dynamic type. */
  lemma CompareMismatchIsFalse(a: Value, b: Value)
    requires KindOf(a) != KindOf(b) && !a.Arr?
    ensures !Compare(a, b)
  {
  }

  /** Strings compare lexicographically, numbers and instants numerically. */
  lemma CompareScalars(a: Value, b: Value)
    ensures a.Str? && b.Str? ==> (Compare(a, b) <==> LexLess(a.s, b.s))
    ensures a.Num? && b.Num? ==> (Compare(a, b) <==> a.n < b.n)
    ensures a.Time? && b.Time? ==> (Compare(a, b) <==> a.instant < b.instant)
  {
    if a.Str? && b.Str? {
      StrLessIsLexicographic(a.s, b.s);
    }
  }

  /** Types with no case in the switch give false even against their own type. */
  lemma CompareUnsupportedIsFalse(a: Value, b: Value)
    requires a.Int? || a.Bool? || a.Nil? || a.Obj?
    ensures !Compare(a, b)
  {
  }

  // ---------------------------------------------------------------------
  // Arrays

  lemma {:induction false} AnyCompareIsExists(items: seq<Value>, b: Value)
    ensures AnyCompare(items, b) <==> exists i :: 0 <= i < |items| && Compare(items[i], b)
    decreases |items|
  {
    if items != [] {
      AnyCompareIsExists(items[1..], b);
      if exists i :: 0 <= i < |items| && Compare(items[i], b) {
        var i :| 0 <= i < |items| && Compare(items[i], b);
        if i > 0 {
          assert items[1..][i - 1] == items[i];
        }
      }
    }
  }

  /** An array is less than `b` exactly when one of its elements is; `[]` never is. */
  lemma CompareArrayIsExists(items: seq<Value>, b: Value)
    ensures Compare(Arr(items), b) <==> exists i :: 0 <= i < |items| && Compare(items[i], b)
    ensures items == [] ==> !Compare(Arr(items), b)
  {
    AnyCompareIsExists(items, b);
  }

  /**
   * Nothing is less than an array: recursion through a left array ends at
   * a scalar, and a scalar against an array is a type mismatch.
   */
  lemma {:induction false} NothingIsLessThanArray(a: Value, ys: seq<Value>)
    ensures !Compare(a, Arr(ys))
    decreases a
  {
    if a.Arr? {
      AnyCompareIsExists(a.items, Arr(ys));
      forall i | 0 <= i < |a.items|
        ensures !Compare(a.items[i], Arr(ys))
      {
        NothingIsLessThanArray(a.items[i], ys);
      }
    }
  }

  /** Array against array is always false. */
  lemma ArrayVersusArrayIsFalse(xs: seq<Value>, ys: seq<Value>)
    ensures !Compare(Arr(xs), Arr(ys))
  {
    NothingIsLessThanArray(Arr(xs), ys);
  }

  /**
   * The recursive, existential reading as one rule: a value is less than
   * `b` exactly when one of the scalars it bottoms out in is. (Against an
   * array `b` both sides are false.)
   */
  lemma {:induction false} CompareIsExistsOverLeaves(a: Value, b: Value)
    ensures Compare(a, b) <==> exists x :: x in Leaves(a) && Compare(x, b)
    decreases a
  {
    if b.Arr? {
      NothingIsLessThanArray(a, b.items);
    } else if a.Arr? {
      AnyCompareOverLeaves(a.items, b);
    }
  }

  lemma {:induction false} AnyCompareOverLeaves(items: seq<Value>, b: Value)
    ensures AnyCompare(items, b) <==> exists x :: x in LeavesOf(items) && Compare(x, b)
    decreases items
  {
    if items != [] {
      CompareIsExistsOverLeaves(items[0], b);
      AnyCompareOverLeaves(items[1..], b);
      assert forall x :: x in LeavesOf(items) <==> x in Leaves(items[0]) || x in LeavesOf(items[1..]);
    }
  }

  // ---------------------------------------------------------------------
  // Order properties

  /** `Compare(x, x)` is false for every value, arrays included. */
  lemma Irreflexive(x: Value)
    ensures !Compare(x, x)
  {
    match x
    case Str(s) => StrLessIrreflexive(s);
    case Arr(items) => NothingIsLessThanArray(x, items);
    case _ =>
  }

  /** `Compare(a, b)` and `Compare(b, a)` never both hold. */
  lemma Asymmetric(a: Value, b: Value)
    ensures !(Compare(a, b) && Compare(b, a))
  {
    if a.Arr? {
      NothingIsLessThanArray(b, a.items);
    } else if b.Arr? {
      NothingIsLessThanArray(a, b.items);
    } else if a.Str? && b.Str? {
      StrLessTrichotomy(a.s, b.s);
    }
  }

  /** Transitive on all values: through an array on the left, the witness element carries over. */
  lemma {:induction false} Transitive(a: Value, b: Value, c: Value)
    requires Compare(a, b) && Compare(b, c)
    ensures Compare(a, c)
    decreases a
  {
    if a.Arr? {
      AnyCompareIsExists(a.items, b);
      var i :| 0 <= i < |a.items| && Compare(a.items[i], b);
      Transitive(a.items[i], b, c);
      AnyCompareIsExists(a.items, c);
    } else if a.Str? {
      StrLessTransitive(a.s, b.s, c.s);
    }
  }

  /** On strings, numbers and timestamps of one type, Compare is a strict total order. */
  lemma Trichotomy(a: Value, b: Value)
    requires KindOf(a) == KindOf(b) && (a.Str? || a.Num? || a.Time?)
    ensures Compare(a, b) || Compare(b, a) || a == b
  {
    if a.Str? {
      StrLessTrichotomy(a.s, b.s);
    }
  }
}
