/**
 * Rule tables. Every class of the algebra keeps an ordered dictionary of
 * named rules. A rule is a pattern together with a handler that either
 * returns a replacement or declines by raising `CannotSimplify`; here both
 * are one total function that returns `Some(replacement)` when the pattern
 * matches and the handler does not decline, and `None` otherwise.
 * Simplification applies the first rule of the table that gives a result.
 */
module Rules {
  import opened Wrappers

  datatype Rule<!A, R> = Rule(name: string, fire: A -> Option<R>)

  function Names<A, R>(rules: seq<Rule<A, R>>): (ns: seq<string>)
    ensures |ns| == |rules| && forall k :: 0 <= k < |rules| ==> ns[k] == rules[k].name
  {
    if |rules| == 0 then [] else [rules[0].name] + Names(rules[1..])
  }

  /** No name occurs twice (the keys of a dictionary). */
  predicate DistinctNames<A, R>(rules: seq<Rule<A, R>>)
  {
    forall k, m :: 0 <= k < m < |rules| ==> rules[k].name != rules[m].name
  }

  // ---------------------------------------------------------------------
  // Applying a table
  // ---------------------------------------------------------------------

  /** The position and result of the first rule that gives a result on `args`. */
  function FirstMatch<A, R>(rules: seq<Rule<A, R>>, args: A): (r: Option<(nat, R)>)
    ensures r.Some? ==> r.value.0 < |rules| && rules[r.value.0].fire(args) == Some(r.value.1)
    ensures r.Some? ==> forall k :: 0 <= k < r.value.0 ==> rules[k].fire(args).None?
    ensures r.None? ==> forall k :: 0 <= k < |rules| ==> rules[k].fire(args).None?
  {
    FirstMatchFrom(rules, args, 0)
  }

  function FirstMatchFrom<A, R>(rules: seq<Rule<A, R>>, args: A, start: nat): (r: Option<(nat, R)>)
    requires start <= |rules|
    requires forall k :: 0 <= k < start ==> rules[k].fire(args).None?
    ensures r.Some? ==> start <= r.value.0 < |rules| && rules[r.value.0].fire(args) == Some(r.value.1)
    ensures r.Some? ==> forall k :: 0 <= k < r.value.0 ==> rules[k].fire(args).None?
    ensures r.None? ==> forall k :: 0 <= k < |rules| ==> rules[k].fire(args).None?
    decreases |rules| - start
  {
    if start == |rules| then None
    else
      match rules[start].fire(args)
      case Some(x) => Some((start, x))
      case None => FirstMatchFrom(rules, args, start + 1)
  }

  // ---------------------------------------------------------------------
  // Registering rules: `OrderedDict.update`
  // ---------------------------------------------------------------------

  /** The position of the rule called `name`, or |rules| if there is none. */
  function IndexOfName<A, R>(rules: seq<Rule<A, R>>, name: string): (k: nat)
    ensures k <= |rules|
    ensures k < |rules| ==> rules[k].name == name
    ensures forall m :: 0 <= m < k ==> rules[m].name != name
  {
    if |rules| == 0 then 0
    else if rules[0].name == name then 0
    else 1 + IndexOfName(rules[1..], name)
  }

  /** `d[rule.name] = rule`: an existing key keeps its place, a new key goes last. */
  function Put<A, R>(rules: seq<Rule<A, R>>, rule: Rule<A, R>): seq<Rule<A, R>>
  {
    var k := IndexOfName(rules, rule.name);
    if k < |rules| then rules[k := rule] else rules + [rule]
  }

  /** `d.update(news)`: the rules of `news` are put in, in their order. */
  function UpdateAll<A, R>(rules: seq<Rule<A, R>>, news: seq<Rule<A, R>>): seq<Rule<A, R>>
  {
    if |news| == 0 then rules
    else Put(UpdateAll(rules, news[..|news| - 1]), news[|news| - 1])
  }

  /** After `d[rule.name] = rule`, the names are the old ones, plus the new name at the end when it was absent. */
  lemma {:induction false} PutNames<A, R>(rules: seq<Rule<A, R>>, rule: Rule<A, R>)
    ensures Names(Put(rules, rule)) ==
      if rule.name in Names(rules) then Names(rules) else Names(rules) + [rule.name]
  {
    var k := IndexOfName(rules, rule.name);
    if k < |rules| {
      assert rule.name in Names(rules) by { assert Names(rules)[k] == rule.name; }
    } else {
      assert rule.name !in Names(rules);
    }
  }

  /** Looking a name up after `d[rule.name] = rule` finds `rule`; every other rule is where it was. */
  lemma {:induction false} PutLookup<A, R>(rules: seq<Rule<A, R>>, rule: Rule<A, R>)
    ensures var k := IndexOfName(Put(rules, rule), rule.name);
      k < |Put(rules, rule)| && Put(rules, rule)[k] == rule
    ensures forall m :: 0 <= m < |rules| && rules[m].name != rule.name ==> Put(rules, rule)[m] == rules[m]
  {
    var k := IndexOfName(rules, rule.name);
    var p := Put(rules, rule);
    assert p[k] == rule;
    assert IndexOfName(p, rule.name) == k by {
      IndexOfNameAt(p, rule.name, k);
    }
  }

  lemma {:induction false} IndexOfNameAt<A, R>(rules: seq<Rule<A, R>>, name: string, k: nat)
    requires k < |rules| && rules[k].name == name
    requires forall m :: 0 <= m < k ==> rules[m].name != name
    ensures IndexOfName(rules, name) == k
  {
  }

  /** A dictionary keeps its keys distinct under `d[rule.name] = rule`. */
  lemma {:induction false} PutDistinct<A, R>(rules: seq<Rule<A, R>>, rule: Rule<A, R>)
    requires DistinctNames(rules)
    ensures DistinctNames(Put(rules, rule))
  {
    var k := IndexOfName(rules, rule.name);
    if k == |rules| {
      forall m | 0 <= m < |rules| ensures rules[m].name != rule.name {}
    }
  }

  /** Updating keeps the keys distinct. */
  lemma {:induction false} UpdateAllDistinct<A, R>(rules: seq<Rule<A, R>>, news: seq<Rule<A, R>>)
    requires DistinctNames(rules)
    ensures DistinctNames(UpdateAll(rules, news))
  {
    if |news| > 0 {
      UpdateAllDistinct(rules, news[..|news| - 1]);
      PutDistinct(UpdateAll(rules, news[..|news| - 1]), news[|news| - 1]);
    }
  }

  /** Updating a table that has none of the new names appends the new rules in order;
      in particular the first registration into an empty table gives exactly the listed rules. */
  lemma {:induction false} UpdateAllFresh<A, R>(rules: seq<Rule<A, R>>, news: seq<Rule<A, R>>)
    requires DistinctNames(news)
    requires forall k, m :: 0 <= k < |rules| && 0 <= m < |news| ==> rules[k].name != news[m].name
    ensures UpdateAll(rules, news) == rules + news
  {
    if |news| > 0 {
      var front := news[..|news| - 1];
      var last := news[|news| - 1];
      UpdateAllFresh(rules, front);
      assert UpdateAll(rules, front) == rules + front;
      forall m | 0 <= m < |rules + front| ensures (rules + front)[m].name != last.name {
        if m >= |rules| {
          assert (rules + front)[m] == news[m - |rules|];
        }
      }
      assert IndexOfName(rules + front, last.name) == |rules + front|;
      assert front + [last] == news;
    }
  }

  /** Registering the same table a second time changes nothing. */
  lemma {:induction false} UpdateAllAgain<A, R>(news: seq<Rule<A, R>>)
    requires DistinctNames(news)
    ensures UpdateAll(UpdateAll([], news), news) == UpdateAll([], news)
  {
    UpdateAllFresh([], news);
    assert [] + news == news;
    UpdateAllSelf(news, |news|);
    assert news[..|news|] == news;
  }

  /** Putting the first n rules of a dictionary into itself changes nothing. */
  lemma {:induction false} UpdateAllSelf<A, R>(news: seq<Rule<A, R>>, n: nat)
    requires DistinctNames(news) && n <= |news|
    ensures UpdateAll(news, news[..n]) == news
  {
    if n > 0 {
      UpdateAllSelf(news, n - 1);
      assert news[..n][..n - 1] == news[..n - 1];
      var x := news[n - 1];
      IndexOfNameAt(news, x.name, n - 1);
      assert news[n - 1 := x] == news;
    }
  }

  /** A rule table owned by one class of the algebra (`_rules` or `_binary_rules`). */
  class RuleTable<A, R> {
    var rules: seq<Rule<A, R>>

    constructor()
      ensures rules == []
    {
      rules := [];
    }

    /** `OrderedDict.update(news)`. */
    method Update(news: seq<Rule<A, R>>)
      modifies this
      ensures rules == UpdateAll(old(rules), news)
    {
      var i := 0;
      while i < |news|
        invariant 0 <= i <= |news|
        invariant rules == UpdateAll(old(rules), news[..i])
      {
        var k := 0;
        while k < |rules| && rules[k].name != news[i].name
          invariant 0 <= k <= |rules|
          invariant forall m :: 0 <= m < k ==> rules[m].name != news[i].name
        {
          k := k + 1;
        }
        if k < |rules| {
          IndexOfNameAt(rules, news[i].name, k);
          rules := rules[k := news[i]];
        } else {
          rules := rules + [news[i]];
        }
        assert news[..i + 1][..i] == news[..i];
        i := i + 1;
      }
      assert news[..|news|] == news;
    }
  }
}
