/**
 * `AccountSpecification.toPredicate`: the account search filter
 * `user = criteria.user AND (number LIKE '%<number>%' OR name LIKE '%<name>%')`.
 *
 * SQL `LIKE` is modelled in full (`%` matches any string, `_` any one
 * character, everything else itself); the filter strings are spliced into the
 * pattern unescaped, as the source does.
 */
module AccountSpecification {
  import opened Entities

  /** `AccountSearchCriteria(user, number, name)`; `user` is the owner's id. */
  datatype AccountSearchCriteria = AccountSearchCriteria(user: Id, number: string, name: string)

  /** `s LIKE p`, with no escape character. */
  predicate Like(s: string, p: string)
    decreases |s| + |p|
  {
    if p == [] then s == []
    else if p[0] == '%' then Like(s, p[1..]) || (s != [] && Like(s[1..], p))
    else s != [] && (p[0] == '_' || p[0] == s[0]) && Like(s[1..], p[1..])
  }

  /** The criteria-builder predicate of `toPredicate`, evaluated on one account row. */
  predicate ToPredicate(c: AccountSearchCriteria, a: Account) {
    && a.owner == c.user
    && (Like(a.number, "%" + c.number + "%") || Like(a.name, "%" + c.name + "%"))
  }

  /** `accountRepository.findAll(new AccountSpecification(c))`: the stored accounts the predicate accepts. */
  function FindAll(accounts: map<Id, Account>, c: AccountSearchCriteria): set<Account> {
    set k | k in accounts && ToPredicate(c, accounts[k]) :: accounts[k]
  }

  /** `f` occurs in `s` as a contiguous substring. */
  ghost predicate Contains(s: string, f: string) {
    exists k :: 0 <= k <= |s| && OccursAt(s, f, k)
  }

  /** `f` occurs in `s` starting at index `k`. */
  predicate OccursAt(s: string, f: string, k: int) {
    0 <= k && k + |f| <= |s| && s[k..k + |f|] == f
  }

  /**
   * `f` holds neither of LIKE's wildcard characters nor a backslash, the
   * default escape character of common SQL dialects; without one, whether the
   * database treats backslash as an escape makes no difference to `f`.
   */
  predicate NoWildcards(f: string) {
    forall i :: 0 <= i < |f| ==> f[i] != '%' && f[i] != '_' && f[i] != '\\'
  }

  /** A lone `%` matches every string. */
  lemma {:induction false} LikePercent(s: string)
    ensures Like(s, "%")
    decreases |s|
  {
    assert "%"[1..] == [];
    if s != [] {
      LikePercent(s[1..]);
    }
  }

  /** A leading `%` lets the rest of the pattern match any suffix. */
  lemma {:induction false} LikeLeadingPercent(s: string, q: string)
    ensures Like(s, "%" + q) <==> exists k :: 0 <= k <= |s| && Like(s[k..], q)
    decreases |s|
  {
    assert ("%" + q)[1..] == q;
    assert s[0..] == s;
    if s != [] {
      LikeLeadingPercent(s[1..], q);
      if Like(s, "%" + q) {
        if !Like(s, q) {
          var k :| 0 <= k <= |s| - 1 && Like(s[1..][k..], q);
          assert s[1..][k..] == s[k + 1..];
        }
      } else {
        forall k | 0 <= k <= |s|
          ensures !Like(s[k..], q)
        {
          if k > 0 {
            assert s[1..][k - 1..] == s[k..];
          }
        }
      }
    }
  }

  /** A wildcard-free pattern followed by `%` matches exactly the strings it prefixes. */
  lemma {:induction false} LikeTrailingPercent(s: string, f: string)
    requires NoWildcards(f)
    ensures Like(s, f + "%") <==> |f| <= |s| && s[..|f|] == f
    decreases |f|
  {
    if f == [] {
      assert f + "%" == "%";
      LikePercent(s);
    } else {
      assert (f + "%")[0] == f[0];
      assert (f + "%")[1..] == f[1..] + "%";
      assert NoWildcards(f[1..]);
      if s != [] {
        LikeTrailingPercent(s[1..], f[1..]);
        if |f| <= |s| {
          assert s[..|f|] == [s[0]] + s[1..][..|f| - 1];
          assert f == [f[0]] + f[1..];
        }
      }
    }
  }

  /** For a filter without wildcards, `LIKE '%f%'` is substring containment. */
  lemma LikeIsContains(s: string, f: string)
    requires NoWildcards(f)
    ensures Like(s, "%" + f + "%") <==> Contains(s, f)
  {
    assert "%" + f + "%" == "%" + (f + "%");
    LikeLeadingPercent(s, f + "%");
    forall k | 0 <= k <= |s|
      ensures Like(s[k..], f + "%") <==> OccursAt(s, f, k)
    {
      LikeTrailingPercent(s[k..], f);
      if k + |f| <= |s| {
        assert s[k..][..|f|] == s[k..k + |f|];
      }
    }
    if Contains(s, f) {
      var k :| 0 <= k <= |s| && OccursAt(s, f, k);
      assert Like(s[k..], f + "%");
    }
  }

  /** An empty filter becomes the pattern `%%`, which matches every value. */
  lemma EmptyFilterMatchesAll(s: string)
    ensures Like(s, "%" + "" + "%")
  {
    assert "%" + "" + "%" == "%%";
    assert "%%"[1..] == "%";
    LikePercent(s);
  }

  /** Only the criteria user's accounts can match. */
  lemma OnlyOwnerMatches(c: AccountSearchCriteria, a: Account)
    ensures ToPredicate(c, a) ==> a.owner == c.user
  {
  }

  /**
   * With wildcard-free filters, an owned account matches exactly when its
   * number contains the number filter or its name contains the name filter.
   */
  lemma MatchIsSubstring(c: AccountSearchCriteria, a: Account)
    requires NoWildcards(c.number) && NoWildcards(c.name)
    ensures ToPredicate(c, a) <==> a.owner == c.user && (Contains(a.number, c.number) || Contains(a.name, c.name))
  {
    LikeIsContains(a.number, c.number);
    LikeIsContains(a.name, c.name);
  }

  /** If either filter is empty, every account of the user matches, whatever the other filter is. */
  lemma EitherEmptyFilterMatchesOwned(c: AccountSearchCriteria, a: Account)
    requires a.owner == c.user && (c.number == "" || c.name == "")
    ensures ToPredicate(c, a)
  {
    if c.number == "" {
      EmptyFilterMatchesAll(a.number);
    } else {
      EmptyFilterMatchesAll(a.name);
    }
  }

  /** The filter is spliced in unescaped, so `_` in a filter matches any character. */
  lemma UnderscoreIsWildcard()
    ensures Like("abc", "%" + "a_c" + "%") && !Contains("abc", "a_c")
  {
    assert "%" + "a_c" + "%" == "%a_c%";
    assert Like("", "");
    assert Like("", "%");
    assert Like("c", "c%");
    assert Like("bc", "_c%");
    assert Like("abc", "a_c%");
    assert Like("abc", "%a_c%");
    assert !OccursAt("abc", "a_c", 0) by {
      assert "abc"[0..3][1] == 'b';
    }
  }
}
