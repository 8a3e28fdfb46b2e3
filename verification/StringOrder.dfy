/** The order Go's `<` puts on strings. */
module StringOrder {

  /** `a` and `b` first differ at `i`, where `a` is smaller or over. */
  ghost predicate LessAt(a: string, b: string, i: nat) {
    i <= |a| && i < |b| && a[..i] == b[..i] && (i < |a| ==> a[i] < b[i])
  }

  ghost predicate Less(a: string, b: string) {
    exists i: nat :: LessAt(a, b, i)
  }

  lemma FirstDifferenceDecides(a: string, b: string, i: nat, j: nat)
    requires LessAt(a, b, i)
    ensures !LessAt(b, a, j)
  {
    if i < j && j <= |a| && j <= |b| {
      assert a[..j][i] == a[i] && b[..j][i] == b[i];
    } else if j < i {
      assert a[j] == a[..i][j];
      assert b[j] == b[..i][j];
    }
  }

  lemma LessIsAsymmetric(a: string, b: string)
    ensures !(Less(a, b) && Less(b, a))
  {
    forall i: nat, j: nat | LessAt(a, b, i) ensures !LessAt(b, a, j) {
      FirstDifferenceDecides(a, b, i, j);
    }
  }

  lemma LessIsTransitive(a: string, b: string, c: string)
    requires Less(a, b) && Less(b, c)
    ensures Less(a, c)
  {
    var i: nat :| LessAt(a, b, i);
    var j: nat :| LessAt(b, c, j);
    var k := if i < j then i else j;
    assert a[..k] == a[..i][..k] == b[..i][..k] == b[..j][..k] == c[..j][..k] == c[..k];
    if i < j {
      assert b[i] == b[..j][i] == c[..j][i];
    } else if j < i {
      assert a[j] == a[..i][j] == b[..i][j];
    }
    assert LessAt(a, c, k);
  }

  lemma {:induction false} LessIsTotal(a: string, b: string)
    ensures a == b || Less(a, b) || Less(b, a)
  {
    if a == [] || b == [] || a[0] != b[0] {
      assert LessAt(a, b, 0) || LessAt(b, a, 0) || a == b;
    } else {
      LessIsTotal(a[1..], b[1..]);
      assert a == [a[0]] + a[1..] && b == [b[0]] + b[1..];
      if i: nat :| LessAt(a[1..], b[1..], i) {
        assert a[..i + 1] == [a[0]] + a[1..][..i] && b[..i + 1] == [b[0]] + b[1..][..i];
        assert LessAt(a, b, i + 1);
      } else if i: nat :| LessAt(b[1..], a[1..], i) {
        assert a[..i + 1] == [a[0]] + a[1..][..i] && b[..i + 1] == [b[0]] + b[1..][..i];
        assert LessAt(b, a, i + 1);
      }
    }
  }
}
