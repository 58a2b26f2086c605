/**
 * The domain-restricted search query of the research agent: every configured
 * domain becomes a `site:` filter, the filters are OR-combined inside
 * parentheses, and the user's question follows verbatim.
 */
module Agents {
  import opened PyStrings

  const SitePrefix: string := "site:"
  const Separator: string := " OR "

  /** Python's `sep.join(xs)`. */
  function Join(sep: string, xs: seq<string>): (r: string)
    decreases |xs|
  {
    if |xs| == 0 then ""
    else if |xs| == 1 then xs[0]
    else xs[0] + sep + Join(sep, xs[1..])
  }

  /** The list comprehension `[f"site:{domain}" for domain in domains]`. */
  function SiteClauses(domains: seq<string>): (clauses: seq<string>) {
    seq(|domains|, i requires 0 <= i < |domains| => SitePrefix + domains[i])
  }

  /** The OR-combined filter `" OR ".join(...)` over the configured domains. */
  function DomainClause(domains: seq<string>): (d: string) {
    Join(Separator, SiteClauses(domains))
  }

  /**
   * `get_seameo_search_query`: `f"({domains}) {user_question}"`, with the
   * `search_domains` list of the JSON configuration given as `domains`.
   */
  function SearchQuery(domains: seq<string>, question: string): (r: string)
    ensures |r| == |DomainClause(domains)| + 3 + |question|
    ensures r[0] == '(' && r[1..|r| - |question| - 2] == DomainClause(domains)
    ensures r[|r| - |question| - 2..|r| - |question|] == ") "
    ensures r[|r| - |question|..] == question
  {
    var d := DomainClause(domains);
    var r := "(" + d + ") " + question;
    assert r == "(" + (d + ") " + question);
    assert r[1..1 + |d|] == d by { SliceOfAppend("(", d + ") " + question, 0, |d|); }
    assert r[1 + |d|..3 + |d|] == ") " by { SliceOfAppend("(" + d, ") " + question, 0, 2); }
    assert r[3 + |d|..] == question by { SliceOfAppend("(" + d + ") ", question, 0, |question|); }
    r
  }

  /** No domains configured: the filter is empty, `"() " + question`. */
  lemma NoDomains(question: string)
    ensures SearchQuery([], question) == "() " + question
  {
  }

  /** One domain: a single filter and no separator. */
  lemma OneDomain(domain: string, question: string)
    ensures SearchQuery([domain], question) == "(" + SitePrefix + domain + ") " + question
  {
  }

  /** Where `xs[k]` starts inside `Join(sep, xs)`. */
  ghost function Offset(sep: string, xs: seq<string>, k: nat): nat
    requires k <= |xs|
    decreases k
  {
    if k == 0 then 0 else |xs[0]| + |sep| + Offset(sep, xs[1..], k - 1)
  }

  /** Consecutive items are one item and one separator apart. */
  lemma {:induction false} OffsetNext(sep: string, xs: seq<string>, k: nat)
    requires k < |xs|
    ensures Offset(sep, xs, k + 1) == Offset(sep, xs, k) + |xs[k]| + |sep|
    decreases k
  {
    if k > 0 {
      OffsetNext(sep, xs[1..], k - 1);
      assert xs[1..][k - 1] == xs[k];
    }
  }

  /** `Join(sep, xs)` holds `xs[k]` at `Offset(sep, xs, k)`. */
  lemma {:induction false} JoinHoldsItem(sep: string, xs: seq<string>, k: nat)
    requires k < |xs|
    ensures Offset(sep, xs, k) + |xs[k]| <= |Join(sep, xs)|
    ensures Join(sep, xs)[Offset(sep, xs, k)..Offset(sep, xs, k) + |xs[k]|] == xs[k]
    decreases k
  {
    if |xs| == 1 {
      assert Join(sep, xs)[0..|xs[0]|] == xs[0];
    } else {
      var rest := Join(sep, xs[1..]);
      assert Join(sep, xs) == xs[0] + sep + rest;
      if k == 0 {
        assert (xs[0] + sep + rest)[0..|xs[0]|] == xs[0];
      } else {
        JoinHoldsItem(sep, xs[1..], k - 1);
        assert xs[1..][k - 1] == xs[k];
        var o := Offset(sep, xs[1..], k - 1);
        SliceOfAppend(xs[0] + sep, rest, o, o + |xs[k]|);
      }
    }
  }

  /** In `Join(sep, xs)`, every item but the last is directly followed by `sep`. */
  lemma {:induction false} JoinHoldsSeparator(sep: string, xs: seq<string>, k: nat)
    requires k + 1 < |xs|
    ensures Offset(sep, xs, k) + |xs[k]| + |sep| <= |Join(sep, xs)|
    ensures Join(sep, xs)[Offset(sep, xs, k) + |xs[k]|..Offset(sep, xs, k) + |xs[k]| + |sep|] == sep
    decreases k
  {
    var rest := Join(sep, xs[1..]);
    assert Join(sep, xs) == xs[0] + sep + rest;
    if k == 0 {
      assert (xs[0] + sep + rest)[|xs[0]|..|xs[0]| + |sep|] == sep;
    } else {
      JoinHoldsSeparator(sep, xs[1..], k - 1);
      assert xs[1..][k - 1] == xs[k];
      var o := Offset(sep, xs[1..], k - 1) + |xs[k]|;
      SliceOfAppend(xs[0] + sep, rest, o, o + |sep|);
    }
  }

  /** `Join(sep, xs)` ends right after its last item. */
  lemma {:induction false} JoinEndsWithLast(sep: string, xs: seq<string>)
    requires |xs| > 0
    ensures |Join(sep, xs)| == Offset(sep, xs, |xs| - 1) + |xs[|xs| - 1]|
    decreases |xs|
  {
    if |xs| > 1 {
      JoinEndsWithLast(sep, xs[1..]);
      assert xs[1..][|xs| - 2] == xs[|xs| - 1];
    }
  }

  /**
   * The filter ends with the clause of the last configured domain: together
   * with `DomainFilterAt` and `SeparatorFollows` this places every character
   * of the filter.
   */
  lemma DomainClauseEnds(domains: seq<string>)
    requires |domains| > 0
    ensures |DomainClause(domains)|
         == Offset(Separator, SiteClauses(domains), |domains| - 1) + |SitePrefix + domains[|domains| - 1]|
  {
    JoinEndsWithLast(Separator, SiteClauses(domains));
  }

  /** The query holds the filter text `d` shifted by the opening parenthesis. */
  lemma QuerySlice(domains: seq<string>, question: string, i: nat, j: nat)
    requires i <= j <= |DomainClause(domains)|
    ensures SearchQuery(domains, question)[1 + i..1 + j] == DomainClause(domains)[i..j]
  {
    var r := SearchQuery(domains, question);
    SliceOfSlice(r, 1, |r| - |question| - 2, i, j);
  }

  /**
   * Every configured domain stands in the query as `site:<domain>`, at the
   * place its clause takes in the filter.
   */
  lemma DomainFilterAt(domains: seq<string>, question: string, k: nat)
    requires k < |domains|
    ensures OccursAt(SearchQuery(domains, question), SitePrefix + domains[k],
                     1 + Offset(Separator, SiteClauses(domains), k))
  {
    var xs := SiteClauses(domains);
    JoinHoldsItem(Separator, xs, k);
    var o := Offset(Separator, xs, k);
    QuerySlice(domains, question, o, o + |xs[k]|);
  }

  /**
   * The domains stand in the query in configuration order: the filter of
   * domain `k` is directly followed by ` OR ` and then the filter of domain `k + 1`.
   */
  lemma SeparatorFollows(domains: seq<string>, question: string, k: nat)
    requires k + 1 < |domains|
    ensures var at := 1 + Offset(Separator, SiteClauses(domains), k) + |SitePrefix + domains[k]|;
      OccursAt(SearchQuery(domains, question), Separator, at) &&
      1 + Offset(Separator, SiteClauses(domains), k + 1) == at + |Separator|
  {
    var xs := SiteClauses(domains);
    JoinHoldsSeparator(Separator, xs, k);
    OffsetNext(Separator, xs, k);
    var o := Offset(Separator, xs, k);
    QuerySlice(domains, question, o + |xs[k]|, o + |xs[k]| + |Separator|);
  }

  /** `query` holds the filter `site:<domain>` somewhere. */
  ghost predicate HasFilter(query: string, domain: string) {
    exists at :: OccursAt(query, SitePrefix + domain, at)
  }

  /** Every configured domain appears in the query as the substring `site:<domain>`. */
  lemma EveryDomainAppears(domains: seq<string>, question: string)
    ensures forall k :: 0 <= k < |domains| ==> HasFilter(SearchQuery(domains, question), domains[k])
  {
    forall k | 0 <= k < |domains|
      ensures HasFilter(SearchQuery(domains, question), domains[k])
    {
      DomainFilterAt(domains, question, k);
      var at := 1 + Offset(Separator, SiteClauses(domains), k);
      assert OccursAt(SearchQuery(domains, question), SitePrefix + domains[k], at);
    }
  }

  /** The filter is the first clause followed by the separator and the filter of the rest. */
  lemma DomainClauseUnfold(domains: seq<string>)
    requires |domains| >= 1
    ensures |domains| == 1 ==> DomainClause(domains) == SitePrefix + domains[0]
    ensures |domains| >= 2 ==>
              DomainClause(domains) == (SitePrefix + domains[0]) + (Separator + DomainClause(domains[1..]))
    ensures |DomainClause(domains)| >= |SitePrefix| && DomainClause(domains)[0] == 's'
  {
    var xs := SiteClauses(domains);
    assert xs[0] == SitePrefix + domains[0];
    if |domains| >= 2 {
      assert xs[1..] == SiteClauses(domains[1..]);
    }
  }

  /** A `site:` clause for a domain holding no `site:` of its own holds exactly one. */
  lemma ClauseHasOneSite(domain: string)
    requires Count(domain, SitePrefix) == 0
    ensures Count(SitePrefix + domain, SitePrefix) == 1
  {
    assert SitePrefix[1] == 'i' && SitePrefix[2] == 't' && SitePrefix[3] == 'e' && SitePrefix[4] == ':';
    NoStraddleByFirst(SitePrefix, domain, SitePrefix);
    CountAppend(SitePrefix, domain, SitePrefix);
    assert OccursAt(SitePrefix, SitePrefix, 0);
    assert Count(SitePrefix, SitePrefix) == 1 + Count(SitePrefix[1..], SitePrefix);
  }

  /**
   * With `k` domains, none holding `site:` itself, the filter holds exactly `k`
   * occurrences of `site:`.
   */
  lemma {:induction false} SiteFilterCount(domains: seq<string>)
    requires forall k :: 0 <= k < |domains| ==> Count(domains[k], SitePrefix) == 0
    ensures Count(DomainClause(domains), SitePrefix) == |domains|
    decreases |domains|
  {
    if |domains| >= 1 {
      DomainClauseUnfold(domains);
      var x := SitePrefix + domains[0];
      ClauseHasOneSite(domains[0]);
      if |domains| >= 2 {
        var rest := DomainClause(domains[1..]);
        DomainClauseUnfold(domains[1..]);
        assert (Separator + rest)[0] == ' ';
        NoStraddleByBoundary(x, Separator + rest, SitePrefix);
        CountAppend(x, Separator + rest, SitePrefix);
        assert forall i :: 0 <= i < |Separator| ==> Separator[i] != 's';
        NoStraddleByFirst(Separator, rest, SitePrefix);
        CountAppend(Separator, rest, SitePrefix);
        assert forall k :: 0 <= k < |domains[1..]| ==> domains[1..][k] == domains[k + 1];
        SiteFilterCount(domains[1..]);
      }
    }
  }

  /** No domain holds a space: true of every host name. */
  predicate NoSpaces(domains: seq<string>) {
    forall k, j :: 0 <= k < |domains| && 0 <= j < |domains[k]| ==> domains[k][j] != ' '
  }

  /**
   * With `k >= 1` domains, none holding a space, the filter holds exactly
   * `k - 1` separators ` OR `.
   */
  lemma {:induction false} SeparatorCount(domains: seq<string>)
    requires |domains| >= 1 && NoSpaces(domains)
    ensures Count(DomainClause(domains), Separator) == |domains| - 1
    decreases |domains|
  {
    DomainClauseUnfold(domains);
    var x := SitePrefix + domains[0];
    assert forall j :: 0 <= j < |x| ==> x[j] != ' ' by {
      forall j | 0 <= j < |x| ensures x[j] != ' ' {
        if j >= |SitePrefix| {
          assert x[j] == domains[0][j - |SitePrefix|];
        }
      }
    }
    CountWithoutFirst(x, Separator);
    if |domains| >= 2 {
      var rest := DomainClause(domains[1..]);
      DomainClauseUnfold(domains[1..]);
      NoStraddleByFirst(x, Separator + rest, Separator);
      CountAppend(x, Separator + rest, Separator);
      assert Separator[1] == 'O' && Separator[2] == 'R' && Separator[3] == ' ';
      NoStraddleByBoundary(Separator, rest, Separator);
      CountAppend(Separator, rest, Separator);
      assert OccursAt(Separator, Separator, 0);
      assert Count(Separator, Separator) == 1 + Count(Separator[1..], Separator);
      assert NoSpaces(domains[1..]) by {
        forall k, j | 0 <= k < |domains[1..]| && 0 <= j < |domains[1..][k]|
          ensures domains[1..][k][j] != ' '
        {
          assert domains[1..][k] == domains[k + 1];
        }
      }
      SeparatorCount(domains[1..]);
    }
  }
}
