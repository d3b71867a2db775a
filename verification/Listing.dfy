/** Filters, order and pages of the marketplace listing. */
module Listing {
  import opened Common
  import opened StableSort
  import opened Marketplace

  // ---------------------------------------------------------------- filters

  predicate PassesRating(f: Filters, summary: Option<Summary>) {
    if f.minRating.None? && f.minReviews.None? then true
    else if summary.None? then false
    else
      && (f.minRating.Some? ==> !(summary.value.avg < f.minRating.value))
      && (f.minReviews.Some? ==> !(summary.value.reviews < f.minReviews.value))
  }

  /** What the two rating filters ask for: an agent without reviews passes neither. */
  lemma PassesRatingExactly(f: Filters, summary: Option<Summary>)
    ensures PassesRating(f, summary)
        <==> && (f.minRating.Some? ==> summary.Some? && summary.value.avg >= f.minRating.value)
             && (f.minReviews.Some? ==> summary.Some? && summary.value.reviews >= f.minReviews.value)
  {
  }

  function Active(templates: seq<Template>): (r: seq<Template>)
    ensures forall x :: x in r <==> x in templates && x.active
  {
    if templates == [] then []
    else
      assert templates == [templates[0]] + templates[1..];
      (if templates[0].active then [templates[0]] else []) + Active(templates[1..])
  }

  /** The lowest price, infinite for none. */
  function Cheapest(templates: seq<Template>): Key {
    if templates == [] then Infinite
    else
      var rest := Cheapest(templates[1..]);
      if rest.Infinite? || templates[0].price <= rest.value then Finite(templates[0].price) else rest
  }

  predicate PassesSla(f: Filters, templates: seq<Template>) {
    if f.hasSla.None? && f.maxPrice.None? then true
    else
      var active := Active(templates);
      if f.hasSla == Some(true) && active == [] then false
      else if f.hasSla == Some(false) && active != [] then false
      else if f.maxPrice.Some? then active != [] && Leq(Cheapest(active), Finite(f.maxPrice.value))
      else true
  }

  lemma {:induction false} CheapestExactly(templates: seq<Template>, price: real)
    ensures Leq(Cheapest(templates), Finite(price)) <==> exists x :: x in templates && x.price <= price
  {
    if templates != [] {
      CheapestExactly(templates[1..], price);
      assert templates == [templates[0]] + templates[1..];
    }
  }

  /** What the two price and SLA filters ask for, in terms of the agent's templates. */
  lemma PassesSlaExactly(f: Filters, templates: seq<Template>)
    ensures PassesSla(f, templates)
        <==> && (f.hasSla.Some? ==> f.hasSla.value == exists x :: x in templates && x.active)
             && (f.maxPrice.Some? ==> exists x :: x in templates && x.active && x.price <= f.maxPrice.value)
  {
    var active := Active(templates);
    assert active != [] <==> exists x :: x in templates && x.active by {
      if active != [] { assert active[0] in active; }
    }
    if f.maxPrice.Some? { CheapestExactly(active, f.maxPrice.value); }
  }

  predicate Passes(t: Tables, f: Filters, p: Profile) {
    PassesRating(f, RatingFor(t, p.name)) && PassesSla(f, TemplatesFor(t, p.name))
  }

  function Passing(t: Tables, f: Filters, profiles: seq<Profile>): (r: seq<Profile>)
    ensures forall p :: p in r <==> p in profiles && Passes(t, f, p)
  {
    if profiles == [] then []
    else
      assert profiles == profiles[..|profiles| - 1] + [profiles[|profiles| - 1]];
      Passing(t, f, profiles[..|profiles| - 1])
      + if Passes(t, f, profiles[|profiles| - 1]) then [profiles[|profiles| - 1]] else []
  }

  // ---------------------------------------------------------------- order

  /** Descending sorts are ascending ones of the negated key; only the price sorts upwards. */
  function KeyOf(sort: SortBy, p: Profile, summary: Option<Summary>, templates: seq<Template>): Key {
    match sort
    case Unsorted => Infinite
    case ByRating => Finite(if summary.Some? then 0.0 - summary.value.avg else 0.0)
    case ByReviews => Finite(if summary.Some? then 0.0 - (summary.value.reviews as real) else 0.0)
    case ByPrice => Cheapest(Active(templates))
    case ByTrust => Finite(0.0 - (p.trust as real))
  }

  function RankOf(t: Tables, sort: SortBy): Profile -> Key {
    (p: Profile) => KeyOf(sort, p, RatingFor(t, p.name), TemplatesFor(t, p.name))
  }

  function List(t: Tables, f: Filters, sort: SortBy, profiles: seq<Profile>): seq<Profile> {
    if sort == Unsorted then Passing(t, f, profiles) else Sorted(Passing(t, f, profiles), RankOf(t, sort))
  }

  /**
   The listing is the one arrangement of the passing profiles that is ordered by the sort
   key and leaves profiles with equal keys in the order of the candidates.
   */
  lemma ListedExactly(t: Tables, f: Filters, sort: SortBy, profiles: seq<Profile>, r: seq<Profile>)
    requires sort != Unsorted
    ensures r == List(t, f, sort, profiles)
        <==> Ordered(r, RankOf(t, sort)) && SameClasses(r, Passing(t, f, profiles), RankOf(t, sort))
  {
    SortedIsTheOnlyOne(Passing(t, f, profiles), r, RankOf(t, sort));
  }

  lemma ListedPass(t: Tables, f: Filters, sort: SortBy, profiles: seq<Profile>, p: Profile)
    ensures p in List(t, f, sort, profiles) <==> p in profiles && Passes(t, f, p)
    ensures multiset(List(t, f, sort, profiles)) == multiset(Passing(t, f, profiles))
  {
    SortedOrdered(Passing(t, f, profiles), RankOf(t, sort));
    assert p in List(t, f, sort, profiles) <==> p in multiset(List(t, f, sort, profiles));
  }

  /** The rating filters in terms of the tables. */
  ghost predicate WellRated(t: Tables, f: Filters, name: string) {
    && (f.minRating.Some? ==> exists s :: RatingOf(t, name, s) && s.avg >= f.minRating.value)
    && (f.minReviews.Some? ==> exists s :: RatingOf(t, name, s) && s.reviews >= f.minReviews.value)
  }

  /** The price and SLA filters in terms of the tables. */
  ghost predicate WellPriced(t: Tables, f: Filters, name: string) {
    && (f.hasSla.Some? ==> f.hasSla.value == exists x :: TemplateOf(t, name, x) && x.active)
    && (f.maxPrice.Some? ==> exists x :: TemplateOf(t, name, x) && x.active && x.price <= f.maxPrice.value)
  }

  lemma WellRatedExactly(t: Tables, f: Filters, name: string)
    requires Registered(t)
    ensures PassesRating(f, RatingFor(t, name)) <==> WellRated(t, f, name)
  {
    var summary := RatingFor(t, name);
    PassesRatingExactly(f, summary);
    forall s: Summary ensures summary == Some(s) <==> RatingOf(t, name, s) { RatingExactly(t, name, s); }
    if summary.Some? { assert RatingOf(t, name, summary.value); }
  }

  lemma WellPricedExactly(t: Tables, f: Filters, name: string)
    requires Registered(t)
    ensures PassesSla(f, TemplatesFor(t, name)) <==> WellPriced(t, f, name)
  {
    var templates := TemplatesFor(t, name);
    PassesSlaExactly(f, templates);
    forall x ensures x in templates <==> TemplateOf(t, name, x) { TemplatesExactly(t, name, x); }
  }

  /** The listing holds exactly the candidates whose ratings and active templates meet every filter given. */
  lemma ListedIfQualified(t: Tables, f: Filters, sort: SortBy, profiles: seq<Profile>, p: Profile)
    requires Registered(t)
    ensures p in List(t, f, sort, profiles)
        <==> p in profiles && WellRated(t, f, p.name) && WellPriced(t, f, p.name)
  {
    ListedPass(t, f, sort, profiles, p);
    WellRatedExactly(t, f, p.name);
    WellPricedExactly(t, f, p.name);
  }

  function StarsOf(summary: Option<Summary>): real {
    if summary.Some? then summary.value.avg else 0.0
  }

  function ReviewsOf(summary: Option<Summary>): int {
    if summary.Some? then summary.value.reviews else 0
  }

  /** `b` has no active template at or below a price that `a` does not reach too. */
  ghost predicate NoDearer(a: seq<Template>, b: seq<Template>) {
    forall y :: y in b && y.active ==> exists x :: x in a && x.active && x.price <= y.price
  }

  /** Which of two profiles may come first: rating, reviews and trust descend, the price ascends. */
  ghost predicate InOrder(t: Tables, sort: SortBy, a: Profile, b: Profile) {
    match sort
    case Unsorted => true
    case ByRating => StarsOf(RatingFor(t, a.name)) >= StarsOf(RatingFor(t, b.name))
    case ByReviews => ReviewsOf(RatingFor(t, a.name)) >= ReviewsOf(RatingFor(t, b.name))
    case ByPrice => NoDearer(TemplatesFor(t, a.name), TemplatesFor(t, b.name))
    case ByTrust => a.trust >= b.trust
  }

  lemma CheaperExactly(a: seq<Template>, b: seq<Template>)
    ensures Leq(Cheapest(Active(a)), Cheapest(Active(b))) <==> NoDearer(a, b)
  {
    var low, other := Cheapest(Active(a)), Cheapest(Active(b));
    forall y | y in b && y.active
      ensures Leq(other, Finite(y.price))
      ensures Leq(low, Finite(y.price)) <==> exists x :: x in a && x.active && x.price <= y.price
    {
      CheapestExactly(Active(b), y.price);
      CheapestExactly(Active(a), y.price);
    }
    if other.Finite? {
      CheapestExactly(Active(b), other.value);
      var y :| y in Active(b) && y.price <= other.value;
      assert Leq(other, Finite(y.price));
    }
  }

  lemma KeyMeansOrder(t: Tables, sort: SortBy, a: Profile, b: Profile)
    ensures Leq(RankOf(t, sort)(a), RankOf(t, sort)(b)) <==> InOrder(t, sort, a, b)
  {
    CheaperExactly(TemplatesFor(t, a.name), TemplatesFor(t, b.name));
  }

  /** Whatever comes earlier in a listing is at least as well rated, reviewed, cheap or trusted. */
  lemma ListedInOrder(t: Tables, f: Filters, sort: SortBy, profiles: seq<Profile>, i: nat, j: nat)
    requires i < j < |List(t, f, sort, profiles)|
    ensures InOrder(t, sort, List(t, f, sort, profiles)[i], List(t, f, sort, profiles)[j])
  {
    SortedOrdered(Passing(t, f, profiles), RankOf(t, sort));
    KeyMeansOrder(t, sort, List(t, f, sort, profiles)[i], List(t, f, sort, profiles)[j]);
  }

  // ---------------------------------------------------------------- pages

  /** Python's list[offset: offset + limit]. */
  function Slice<T>(s: seq<T>, offset: nat, limit: nat): seq<T> {
    if offset >= |s| then [] else if offset + limit >= |s| then s[offset..] else s[offset..offset + limit]
  }

  lemma SliceAt<T>(s: seq<T>, offset: nat, limit: nat, k: nat)
    ensures k < |Slice(s, offset, limit)| <==> k < limit && offset + k < |s|
    ensures k < limit && offset + k < |s| ==> Slice(s, offset, limit)[k] == s[offset + k]
  {
  }

  function Pages<T>(s: seq<T>, limit: nat, n: nat): seq<T> {
    if n == 0 then [] else Pages(s, limit, n - 1) + Slice(s, (n - 1) * limit, limit)
  }

  lemma NextPage<T>(s: seq<T>, start: nat, limit: nat)
    ensures (if start >= |s| then s else s[..start]) + Slice(s, start, limit)
         == if start + limit >= |s| then s else s[..start + limit]
  {
  }

  /** The first `n` pages, one after the other, are the first n·limit items: no gap, no repeat. */
  lemma {:induction false} PagesConcatenate<T>(s: seq<T>, limit: nat, n: nat)
    ensures Pages(s, limit, n) == if n * limit >= |s| then s else s[..n * limit]
  {
    if n > 0 {
      PagesConcatenate(s, limit, n - 1);
      NextPage(s, (n - 1) * limit, limit);
      assert (n - 1) * limit + limit == n * limit;
    }
  }

  // ---------------------------------------------------------------- the endpoint

  lemma {:induction false} InsertAgrees<T>(x: T, s: seq<T>, a: T -> Key, b: T -> Key)
    requires a(x) == b(x) && forall y :: y in s ==> a(y) == b(y)
    ensures Insert(x, s, a) == Insert(x, s, b)
  {
    if s != [] { InsertAgrees(x, s[1..], a, b); }
  }

  lemma {:induction false} SortedAgrees<T>(s: seq<T>, a: T -> Key, b: T -> Key)
    requires forall y :: y in s ==> a(y) == b(y)
    ensures Sorted(s, a) == Sorted(s, b)
  {
    if s != [] {
      SortedAgrees(s[1..], a, b);
      SortedOrdered(s[1..], b);
      forall y | y in Sorted(s[1..], b) ensures a(y) == b(y) { assert y in multiset(Sorted(s[1..], b)); }
      InsertAgrees(s[0], Sorted(s[1..], b), a, b);
    }
  }

  method Browse(t: Tables, profiles: seq<Profile>, f: Filters, sort: SortBy, offset: nat, limit: nat)
    returns (page: seq<Profile>, total: nat)
    requires Registered(t)
    ensures page == Slice(List(t, f, sort, profiles), offset, limit)
    ensures total == |List(t, f, sort, profiles)|
  {
    var names := seq(|profiles|, i requires 0 <= i < |profiles| => profiles[i].name);
    var rating, sla := BuildLookups(t, names);
    assert forall i :: 0 <= i < |profiles| ==> names[i] in names;
    var filtered: seq<Profile> := [];
    for i := 0 to |profiles|
      invariant filtered == Passing(t, f, profiles[..i])
    {
      assert profiles[..i + 1][..i] == profiles[..i];
      assert names[i] == profiles[i].name;
      if PassesRating(f, rating[names[i]]) && PassesSla(f, GetOrEmpty(sla, names[i])) {
        filtered := filtered + [profiles[i]];
      }
    }
    assert profiles[..|profiles|] == profiles;
    if sort != Unsorted {
      var key := (p: Profile) =>
        KeyOf(sort, p, if p.name in rating then rating[p.name] else None, GetOrEmpty(sla, p.name));
      forall p | p in filtered ensures key(p) == RankOf(t, sort)(p) {
        var i :| 0 <= i < |profiles| && profiles[i] == p;
        assert names[i] == p.name;
      }
      SortedAgrees(filtered, key, RankOf(t, sort));
      filtered := Sorted(filtered, key);
    }
    total := |filtered|;
    page := Slice(filtered, offset, limit);
  }
}
