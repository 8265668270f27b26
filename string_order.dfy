/**
 * Lexicographic order on strings by character code, the order Python's
 * `sorted` uses for a list of strings, and the sorted listing of a set.
 */
module StringOrder {

  /** a comes no later than b: a is a prefix of b, or a is smaller at the first difference. */
  predicate LexLe(a: string, b: string) {
    |a| == 0 || (|b| != 0 && (a[0] < b[0] || (a[0] == b[0] && LexLe(a[1..], b[1..]))))
  }

  lemma {:induction false} LexLeReflexive(a: string)
    ensures LexLe(a, a)
    decreases |a|
  {
    if |a| != 0 { LexLeReflexive(a[1..]); }
  }

  lemma {:induction false} LexLeTotal(a: string, b: string)
    ensures LexLe(a, b) || LexLe(b, a)
    decreases |a|
  {
    if |a| != 0 && |b| != 0 && a[0] == b[0] { LexLeTotal(a[1..], b[1..]); }
  }

  lemma {:induction false} LexLeAntisymmetric(a: string, b: string)
    requires LexLe(a, b) && LexLe(b, a)
    ensures a == b
    decreases |a|
  {
    if |a| != 0 {
      LexLeAntisymmetric(a[1..], b[1..]);
      assert a == [a[0]] + a[1..] && b == [b[0]] + b[1..];
    }
  }

  lemma {:induction false} LexLeTransitive(a: string, b: string, c: string)
    requires LexLe(a, b) && LexLe(b, c)
    ensures LexLe(a, c)
    decreases |a|
  {
    if |a| != 0 && a[0] == b[0] && b[0] == c[0] {
      LexLeTransitive(a[1..], b[1..], c[1..]);
    }
  }

  /** m is the least element of s. */
  predicate IsLeast(m: string, s: set<string>) {
    m in s && forall x :: x in s ==> LexLe(m, x)
  }

  lemma {:induction false} LeastExists(s: set<string>)
    requires s != {}
    ensures exists m :: IsLeast(m, s)
    decreases s
  {
    var y :| y in s;
    if s == {y} {
      LexLeReflexive(y);
      assert IsLeast(y, s);
    } else {
      LeastExists(s - {y});
      var m :| IsLeast(m, s - {y});
      LexLeTotal(m, y);
      if LexLe(m, y) {
        assert IsLeast(m, s);
      } else {
        forall x | x in s ensures LexLe(y, x) {
          if x == y { LexLeReflexive(y); } else { LexLeTransitive(y, m, x); }
        }
        assert IsLeast(y, s);
      }
    }
  }

  lemma LeastUnique()
    ensures forall m1, m2, s :: IsLeast(m1, s) && IsLeast(m2, s) ==> m1 == m2
  {
    forall m1, m2, s | IsLeast(m1, s) && IsLeast(m2, s) ensures m1 == m2 {
      LexLeAntisymmetric(m1, m2);
    }
  }

  /** The least element of a non-empty set. */
  function Least(s: set<string>): (m: string)
    requires s != {}
    ensures IsLeast(m, s)
  {
    LeastExists(s);
    LeastUnique();
    var m :| IsLeast(m, s); m
  }

  /** Each element is strictly smaller than the next, so the sequence is sorted and repetition-free. */
  ghost predicate StrictlySorted(r: seq<string>) {
    forall i, j :: 0 <= i < j < |r| ==> LexLe(r[i], r[j]) && r[i] != r[j]
  }

  /** The elements of s in ascending order, each once. */
  function SortedList(s: set<string>): (r: seq<string>)
    ensures StrictlySorted(r)
    ensures |r| == |s|
    ensures forall x :: x in r <==> x in s
    decreases s
  {
    if s == {} then []
    else
      var m := Least(s);
      var rest := SortedList(s - {m});
      assert forall j :: 0 < j < |[m] + rest| ==> ([m] + rest)[j] in s - {m};
      [m] + rest
  }
}
