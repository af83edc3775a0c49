/** The team universe of a fit: `sorted(list(_get_unique_teams(matches)))`.
    Python orders strings lexicographically by code point, a proper prefix
    first. */
module Teams {
  import opened Records

  /** Python's `a < b` on strings. */
  predicate Less(a: string, b: string)
    decreases |a|
  {
    if |a| == 0 then |b| > 0
    else if |b| == 0 then false
    else if a[0] != b[0] then a[0] < b[0]
    else Less(a[1..], b[1..])
  }

  lemma {:induction false} LessIrreflexive(a: string)
    ensures !Less(a, a)
    decreases |a|
  {
    if |a| > 0 {
      LessIrreflexive(a[1..]);
    }
  }

  lemma {:induction false} LessTransitive(a: string, b: string, c: string)
    requires Less(a, b) && Less(b, c)
    ensures Less(a, c)
    decreases |a|
  {
    if |a| > 0 && a[0] == b[0] && b[0] == c[0] {
      LessTransitive(a[1..], b[1..], c[1..]);
    }
  }

  /** Any two strings compare one way, the other way, or are equal. */
  lemma {:induction false} LessTrichotomy(a: string, b: string)
    ensures a == b || Less(a, b) || Less(b, a)
    decreases |a|
  {
    if |a| > 0 && |b| > 0 && a[0] == b[0] {
      LessTrichotomy(a[1..], b[1..]);
      if a[1..] == b[1..] {
        assert a == [a[0]] + a[1..] && b == [b[0]] + b[1..];
      }
    }
  }

  lemma {:induction false} LessAsymmetric(a: string, b: string)
    requires Less(a, b)
    ensures !Less(b, a)
    decreases |a|
  {
    if |a| > 0 && |b| > 0 && a[0] == b[0] {
      LessAsymmetric(a[1..], b[1..]);
    }
  }

  predicate StrictlySorted(s: seq<string>) {
    forall i, j :: 0 <= i < j < |s| ==> Less(s[i], s[j])
  }

  predicate Distinct<T(==)>(s: seq<T>) {
    forall i, j :: 0 <= i < j < |s| ==> s[i] != s[j]
  }

  function Elements<T>(s: seq<T>): set<T> {
    set x | x in s
  }

  lemma SortedIsDistinct(s: seq<string>)
    requires StrictlySorted(s)
    ensures Distinct(s)
  {
    forall i, j | 0 <= i < j < |s| ensures s[i] != s[j] {
      if s[i] == s[j] {
        LessIrreflexive(s[i]);
      }
    }
  }

  /** Adds `t` to a strictly sorted list unless it is already there. */
  function Insert(t: string, s: seq<string>): (r: seq<string>)
    requires StrictlySorted(s)
    ensures StrictlySorted(r)
    ensures Elements(r) == Elements(s) + {t}
  {
    if |s| == 0 then [t]
    else if t == s[0] then s
    else if Less(t, s[0]) then
      assert forall x :: x in s ==> Less(t, x) by {
        forall x | x in s ensures Less(t, x) {
          if x != s[0] {
            LessTransitive(t, s[0], x);
          }
        }
      }
      ConsSorted(t, s);
      [t] + s
    else
      var rest := Insert(t, s[1..]);
      assert forall x :: x in rest ==> Less(s[0], x) by {
        LessTrichotomy(t, s[0]);
        HeadBelowTail(s);
        assert forall x :: x in rest ==> x in Elements(rest);
      }
      ConsSorted(s[0], rest);
      [s[0]] + rest
  }

  /** In a strictly sorted list the head is below every later element. */
  lemma HeadBelowTail(s: seq<string>)
    requires StrictlySorted(s) && |s| > 0
    ensures forall x :: x in s[1..] ==> Less(s[0], x)
    ensures Elements(s) == {s[0]} + Elements(s[1..])
  {
    forall x | x in s[1..] ensures Less(s[0], x) {
      var k :| 0 <= k < |s[1..]| && s[1..][k] == x;
      assert s[k + 1] == x;
    }
    assert s == [s[0]] + s[1..];
  }

  /** An element below every element of a strictly sorted list can be put
      in front of it. */
  lemma ConsSorted(x: string, s: seq<string>)
    requires StrictlySorted(s) && forall y :: y in s ==> Less(x, y)
    ensures StrictlySorted([x] + s)
    ensures Elements([x] + s) == {x} + Elements(s)
  {
    var r := [x] + s;
    forall i, j | 0 <= i < j < |r| ensures Less(r[i], r[j]) {
      if i == 0 {
        assert r[j] == s[j - 1];
        assert s[j - 1] in s;
      } else {
        assert r[i] == s[i - 1] && r[j] == s[j - 1];
      }
    }
  }

  /** `_get_unique_teams`: every home and away name. */
  function TeamSet(ms: seq<Match>): set<string> {
    (set m | m in ms :: m.home) + (set m | m in ms :: m.away)
  }

  lemma TeamSetSnoc(ms: seq<Match>)
    requires |ms| > 0
    ensures TeamSet(ms) == TeamSet(ms[..|ms| - 1]) + {ms[|ms| - 1].home, ms[|ms| - 1].away}
  {
    assert ms == ms[..|ms| - 1] + [ms[|ms| - 1]];
  }

  /** `sorted(list(_get_unique_teams(ms)))`. */
  function SortedTeams(ms: seq<Match>): (teams: seq<string>)
    ensures StrictlySorted(teams) && Distinct(teams)
    ensures Elements(teams) == TeamSet(ms)
  {
    if |ms| == 0 then []
    else
      var last := ms[|ms| - 1];
      var teams := Insert(last.away, Insert(last.home, SortedTeams(ms[..|ms| - 1])));
      TeamSetSnoc(ms);
      SortedIsDistinct(teams);
      teams
  }

  /** A set has only one strictly sorted listing, so `SortedTeams` is the
      list Python's `sorted` produces. */
  lemma {:induction false} SortedListingUnique(a: seq<string>, b: seq<string>)
    requires StrictlySorted(a) && StrictlySorted(b) && Elements(a) == Elements(b)
    ensures a == b
    decreases |a|
  {
    assert |a| > 0 ==> a[0] in Elements(b);
    assert |b| > 0 ==> b[0] in Elements(a);
    if |a| > 0 && |b| > 0 {
      if a[0] != b[0] {
        assert a[0] in Elements(b) && b[0] in Elements(a);
        var i :| 0 <= i < |b| && b[i] == a[0];
        var j :| 0 <= j < |a| && a[j] == b[0];
        assert i > 0 && j > 0;
        LessAsymmetric(b[0], a[0]);
      }
      assert Elements(a[1..]) == Elements(a) - {a[0]} by {
        SortedIsDistinct(a);
        forall x | x in a[1..] ensures x != a[0] {
          var k :| 0 <= k < |a[1..]| && a[1..][k] == x;
          assert a[k + 1] == x;
        }
      }
      assert Elements(b[1..]) == Elements(b) - {b[0]} by {
        SortedIsDistinct(b);
        forall x | x in b[1..] ensures x != b[0] {
          var k :| 0 <= k < |b[1..]| && b[1..][k] == x;
          assert b[k + 1] == x;
        }
      }
      SortedListingUnique(a[1..], b[1..]);
      assert a == [a[0]] + a[1..] && b == [b[0]] + b[1..];
    }
  }
}
