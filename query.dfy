/** What the core uses of SQL queries over a table held in insertion order:
    `filter(...).first()`, `filter(...)`, `offset(skip).limit(limit)` and the
    case-insensitive pattern match `ilike`. */
module Query {
  import opened Models

  /** `filter(keep).first()`: the index of the first row that satisfies `keep`. */
  function First<T>(s: seq<T>, keep: T -> bool): (r: Option<nat>)
    ensures r.Some? ==> r.value < |s| && keep(s[r.value])
    ensures r.Some? ==> forall j :: 0 <= j < r.value ==> !keep(s[j])
    ensures r.None? <==> forall j :: 0 <= j < |s| ==> !keep(s[j])
  {
    if s == [] then None
    else if keep(s[0]) then Some(0)
    else match First(s[1..], keep)
      case None => None
      case Some(k) => Some(k + 1)
  }

  /** `filter(keep)`: the rows that satisfy `keep`, in table order. */
  function Filter<T>(s: seq<T>, keep: T -> bool): (r: seq<T>)
    ensures |r| <= |s|
    ensures forall i :: 0 <= i < |r| ==> r[i] in s && keep(r[i])
    ensures forall i :: 0 <= i < |s| && keep(s[i]) ==> s[i] in r
  {
    if s == [] then []
    else if keep(s[0]) then [s[0]] + Filter(s[1..], keep)
    else Filter(s[1..], keep)
  }

  /** Two filters that agree on every row select the same rows. */
  lemma {:induction false} FilterAgrees<T>(s: seq<T>, keep: T -> bool, keep': T -> bool)
    requires forall i :: 0 <= i < |s| ==> keep(s[i]) == keep'(s[i])
    ensures Filter(s, keep) == Filter(s, keep')
  {
    if s != [] {
      FilterAgrees(s[1..], keep, keep');
    }
  }

  /** Two filters applied in turn select the rows that pass both. */
  lemma {:induction false} FilterFilter<T>(s: seq<T>, keep: T -> bool, keep': T -> bool, both: T -> bool)
    requires forall i :: 0 <= i < |s| ==> both(s[i]) == (keep(s[i]) && keep'(s[i]))
    ensures Filter(Filter(s, keep), keep') == Filter(s, both)
  {
    if s != [] {
      FilterFilter(s[1..], keep, keep', both);
      if keep(s[0]) {
        assert ([s[0]] + Filter(s[1..], keep))[1..] == Filter(s[1..], keep);
      }
    }
  }

  /** A filter every row passes keeps the whole table. */
  lemma {:induction false} FilterAll<T>(s: seq<T>, keep: T -> bool)
    requires forall i :: 0 <= i < |s| ==> keep(s[i])
    ensures Filter(s, keep) == s
  {
    if s != [] {
      FilterAll(s[1..], keep);
    }
  }

  /** `delete(row)`: the table without its row at index `k`. */
  function RemoveAt<T>(s: seq<T>, k: nat): (r: seq<T>)
    requires k < |s|
    ensures |r| == |s| - 1
    ensures forall i :: 0 <= i < k ==> r[i] == s[i]
    ensures forall i :: k <= i < |r| ==> r[i] == s[i + 1]
  {
    s[..k] + s[k + 1..]
  }

  /** `offset(skip).limit(limit)`: at most `limit` rows, starting after the
      first `skip` ones. */
  function Page<T>(s: seq<T>, skip: nat, limit: nat): (r: seq<T>)
    ensures |r| <= limit
    ensures |r| == if skip >= |s| then 0 else if |s| - skip <= limit then |s| - skip else limit
    ensures forall i :: 0 <= i < |r| ==> skip + i < |s| && r[i] == s[skip + i]
  {
    if skip >= |s| then []
    else if |s| - skip <= limit then s[skip..]
    else s[skip..skip + limit]
  }

  /** A page that starts at the beginning and is large enough holds every row. */
  lemma {:induction false} PageAll<T>(s: seq<T>, limit: nat)
    requires |s| <= limit
    ensures Page(s, 0, limit) == s
  {
  }

  /** ASCII lower-casing, as SQL `lower()` applies it. */
  function Lower(c: char): (r: char)
    ensures 'A' <= c <= 'Z' ==> 'a' <= r <= 'z'
    ensures !('A' <= c <= 'Z') ==> r == c
  {
    if 'A' <= c <= 'Z' then (c as int + 32) as char else c
  }

  function LowerAll(s: string): (r: string)
    ensures |r| == |s|
    ensures forall i :: 0 <= i < |s| ==> r[i] == Lower(s[i])
  {
    seq(|s|, i requires 0 <= i < |s| => Lower(s[i]))
  }

  /** SQL `LIKE`: `%` matches any run of characters, `_` any one character,
      every other character itself. */
  function Like(t: string, p: string): (r: bool)
    decreases |p|, |t|
    // a pattern without wild cards matches exactly itself
    ensures NoWildcards(p) ==> (r <==> t == p)
  {
    if p == [] then t == []
    else if p[0] == '%' then Like(t, p[1..]) || (t != [] && Like(t[1..], p))
    else if p[0] == '_' then t != [] && Like(t[1..], p[1..])
    else t != [] && t[0] == p[0] && Like(t[1..], p[1..])
  }

  /** `ilike`: `LIKE` after lower-casing both sides. */
  predicate ILike(t: string, p: string)
    ensures NoWildcards(p) ==> (ILike(t, p) <==> LowerAll(t) == LowerAll(p))
  {
    Like(LowerAll(t), LowerAll(p))
  }

  predicate NoWildcards(s: string)
  {
    forall i :: 0 <= i < |s| ==> s[i] != '%' && s[i] != '_'
  }

  /** `s` occurs in `t` as a contiguous run starting at `i`. */
  predicate OccursAt(t: string, s: string, i: int)
  {
    0 <= i <= |t| - |s| && t[i..i + |s|] == s
  }

  /** `s` occurs in `t` as a contiguous run. */
  predicate Contains(t: string, s: string)
  {
    exists i :: 0 <= i <= |t| && OccursAt(t, s, i)
  }

  lemma {:induction false} PercentMatchesAll(t: string)
    ensures Like(t, "%")
  {
    if t != [] {
      PercentMatchesAll(t[1..]);
    }
  }

  /** A wild-card free pattern followed by `%` matches exactly the strings it prefixes. */
  lemma {:induction false} PrefixLike(t: string, s: string)
    requires NoWildcards(s)
    ensures Like(t, s + "%") <==> |s| <= |t| && t[..|s|] == s
  {
    if s == [] {
      assert s + "%" == "%";
      PercentMatchesAll(t);
    } else {
      var p := s + "%";
      assert p[0] == s[0] && p[1..] == s[1..] + "%";
      assert NoWildcards(s[1..]) by {
        forall i | 0 <= i < |s[1..]| ensures s[1..][i] != '%' && s[1..][i] != '_' {
          assert s[1..][i] == s[i + 1];
        }
      }
      if t != [] {
        PrefixLike(t[1..], s[1..]);
        if |s| <= |t| && t[..|s|] == s {
          assert t[1..][..|s| - 1] == t[..|s|][1..];
        }
        if |s| - 1 <= |t| - 1 && t[1..][..|s| - 1] == s[1..] && t[0] == s[0] {
          assert t[..|s|] == [t[0]] + t[1..][..|s| - 1];
        }
      }
    }
  }

  /** A leading `%` lets the rest of the pattern match any suffix. */
  lemma {:induction false} LeadingPercentLike(t: string, q: string)
    ensures Like(t, "%" + q) <==> exists k :: 0 <= k <= |t| && Like(t[k..], q)
  {
    var p := "%" + q;
    assert p[0] == '%' && p[1..] == q;
    if Like(t, p) {
      if Like(t, q) {
        assert t[0..] == t;
      } else {
        LeadingPercentLike(t[1..], q);
        var k :| 0 <= k <= |t[1..]| && Like(t[1..][k..], q);
        assert t[1..][k..] == t[k + 1..];
      }
    }
    if exists k :: 0 <= k <= |t| && Like(t[k..], q) {
      var k :| 0 <= k <= |t| && Like(t[k..], q);
      if k == 0 {
        assert t[0..] == t;
      } else {
        LeadingPercentLike(t[1..], q);
        assert t[1..][k - 1..] == t[k..];
      }
    }
  }

  /** `like('%s%')` with a wild-card free `s` is substring search. */
  lemma {:induction false} SubstringLike(t: string, s: string)
    requires NoWildcards(s)
    ensures Like(t, "%" + s + "%") <==> Contains(t, s)
  {
    assert "%" + s + "%" == "%" + (s + "%");
    LeadingPercentLike(t, s + "%");
    if Like(t, "%" + (s + "%")) {
      var k :| 0 <= k <= |t| && Like(t[k..], s + "%");
      PrefixLike(t[k..], s);
      assert t[k..][..|s|] == t[k..k + |s|];
      assert OccursAt(t, s, k);
    }
    if Contains(t, s) {
      var k :| 0 <= k <= |t| && OccursAt(t, s, k);
      PrefixLike(t[k..], s);
      assert t[k..][..|s|] == t[k..k + |s|];
    }
  }

  /** `ilike('%s%')` with a wild-card free `s` is case-insensitive substring search. */
  lemma {:induction false} SubstringILike(t: string, s: string)
    requires NoWildcards(s)
    ensures ILike(t, "%" + s + "%") <==> Contains(LowerAll(t), LowerAll(s))
  {
    assert LowerAll("%" + s + "%") == "%" + LowerAll(s) + "%";
    assert NoWildcards(LowerAll(s));
    SubstringLike(LowerAll(t), LowerAll(s));
  }
}
