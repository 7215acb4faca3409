/** The iteration order of the key map: std::map visits its keys in the lexicographic order of
    std::string. */
module KeyOrder {

  predicate Before(a: string, b: string) {
    if b == [] then false
    else if a == [] then true
    else a[0] < b[0] || (a[0] == b[0] && Before(a[1..], b[1..]))
  }

  /** The two agree before place n, where a ends or has the smaller character. */
  predicate ComesFirstAt(a: string, b: string, n: nat) {
    n <= |a| && n < |b| && a[..n] == b[..n] && (n == |a| || a[n] < b[n])
  }

  /** The lexicographic order of strings. */
  ghost predicate ComesFirst(a: string, b: string) {
    exists n: nat :: ComesFirstAt(a, b, n)
  }

  lemma {:induction false} BeforeIsLexicographic(a: string, b: string)
    ensures Before(a, b) <==> ComesFirst(a, b)
  {
    if b == [] || a == [] || a[0] != b[0] {
      if Before(a, b) {
        assert ComesFirstAt(a, b, 0);
      } else if n: nat :| ComesFirstAt(a, b, n) {
        assert n > 0 ==> a[..n][0] == b[..n][0];
      }
    } else {
      BeforeIsLexicographic(a[1..], b[1..]);
      if n: nat :| ComesFirstAt(a[1..], b[1..], n) {
        assert a[..n + 1] == [a[0]] + a[1..][..n] && b[..n + 1] == [b[0]] + b[1..][..n];
        assert ComesFirstAt(a, b, n + 1);
      }
      if n: nat :| ComesFirstAt(a, b, n) {
        assert n > 0;
        assert a[1..][..n - 1] == a[..n][1..] && b[1..][..n - 1] == b[..n][1..];
        assert ComesFirstAt(a[1..], b[1..], n - 1);
      }
    }
  }

  lemma {:induction false} BeforeIsTotal(a: string, b: string)
    ensures Before(a, b) || a == b || Before(b, a)
  {
    if a != [] && b != [] {
      BeforeIsTotal(a[1..], b[1..]);
      assert a == [a[0]] + a[1..] && b == [b[0]] + b[1..];
    }
  }

  lemma {:induction false} BeforeIsStrict(a: string, b: string)
    ensures !(Before(a, b) && Before(b, a)) && !Before(a, a)
  {
    if a != [] {
      BeforeIsStrict(a[1..], if b != [] then b[1..] else []);
    }
  }

  lemma {:induction false} BeforeIsTransitive(a: string, b: string, c: string)
    requires Before(a, b) && Before(b, c)
    ensures Before(a, c)
  {
    if a != [] && a[0] == b[0] == c[0] {
      BeforeIsTransitive(a[1..], b[1..], c[1..]);
    }
  }

  predicate IsFirst(k: string, s: set<string>) {
    k in s && forall j :: j in s ==> j == k || Before(k, j)
  }

  lemma {:induction false} FirstExists(s: set<string>)
    requires s != {}
    ensures exists k :: IsFirst(k, s)
  {
    var k :| k in s;
    if s == {k} {
      assert IsFirst(k, s);
    } else {
      FirstExists(s - {k});
      var m :| IsFirst(m, s - {k});
      BeforeIsTotal(k, m);
      if Before(m, k) {
        assert IsFirst(m, s);
      } else {
        forall j | j in s && j != k ensures Before(k, j) {
          if j != m {
            BeforeIsTransitive(k, m, j);
          }
        }
        assert IsFirst(k, s);
      }
    }
  }

  lemma FirstIsUnique(k: string, m: string, s: set<string>)
    requires IsFirst(k, s) && IsFirst(m, s)
    ensures k == m
  {
    BeforeIsStrict(k, m);
  }

  /** All keys of s, from the first to the last. */
  ghost function Ordered(s: set<string>): seq<string> {
    if s == {} then []
    else
      FirstExists(s);
      var k :| IsFirst(k, s);
      [k] + Ordered(s - {k})
  }

  lemma OrderedStartsAt(s: set<string>, k: string)
    requires IsFirst(k, s)
    ensures Ordered(s) == [k] + Ordered(s - {k})
  {
    FirstIsUnique(k, Ordered(s)[0], s);
  }

  predicate NoRepeats(ks: seq<string>) {
    forall i, j :: 0 <= i < j < |ks| ==> ks[i] != ks[j]
  }

  lemma {:induction false} OrderedCovers(s: set<string>)
    ensures NoRepeats(Ordered(s))
    ensures forall k :: k in Ordered(s) <==> k in s
  {
    if s != {} {
      var ks := Ordered(s);
      OrderedCovers(s - {ks[0]});
      assert forall i :: 0 < i < |ks| ==> ks[i] == Ordered(s - {ks[0]})[i - 1];
      assert forall i :: 0 < i < |ks| ==> ks[i] in Ordered(s - {ks[0]});
    }
  }

  /** A listing of a set of keys from the first to the last. */
  ghost predicate Ascending(ks: seq<string>, s: set<string>) {
    && (forall k :: k in ks <==> k in s)
    && forall i, j :: 0 <= i < j < |ks| ==> ComesFirst(ks[i], ks[j])
  }

  lemma {:induction false} OrderedAscends(s: set<string>)
    ensures Ascending(Ordered(s), s)
  {
    OrderedCovers(s);
    if s != {} {
      var ks := Ordered(s);
      var k := ks[0];
      OrderedAscends(s - {k});
      OrderedCovers(s - {k});
      assert ks[1..] == Ordered(s - {k});
      forall i, j | 0 <= i < j < |ks| ensures ComesFirst(ks[i], ks[j]) {
        if i == 0 {
          assert IsFirst(k, s) && ks[j] in ks;
          BeforeIsLexicographic(k, ks[j]);
        } else {
          assert ks[1..][i - 1] == ks[i] && ks[1..][j - 1] == ks[j];
        }
      }
    }
  }
}
