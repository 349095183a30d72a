/**
 The cached queries of one static tree dictionary, with the item and definition
 transactions of every dictionary as the writers.
 */
module CachedTree {
  import opened TreeItems
  import opened ResultValidator
  import opened TreeQuery
  import opened CanonicalQuery
  import opened QueryCache
  import Stored = StoredTree
  import Store = DictionaryStore
  import opened StoredQuery

  // ---- What one dictionary looks like to its readers ------------------------

  /** The order in which the rows with these ids are read. */
  ghost function InOrder(ids: set<string>): seq<string>
    decreases |ids|
  {
    if ids == {} then []
    else
      var x :| x in ids;
      [x] + InOrder(ids - {x})
  }

  lemma {:induction false} InOrderOnce(ids: set<string>)
    ensures forall x :: x in InOrder(ids) <==> x in ids
    ensures forall i, j | 0 <= i < j < |InOrder(ids)| :: InOrder(ids)[i] != InOrder(ids)[j]
    decreases |ids|
  {
    if ids == {} {
    } else {
      var x := InOrder(ids)[0];
      assert InOrder(ids)[1..] == InOrder(ids - {x});
      InOrderOnce(ids - {x});
      assert InOrder(ids) == [x] + InOrder(ids - {x});
    }
  }

  function RowsOf(items: Stored.Table, dictionary: string): Stored.Table {
    map x | x in items && Stored.LiveIn(items, dictionary, x) :: items[x]
  }

  function ReadRows(rows: Stored.Table, ids: seq<string>): (r: seq<Item>)
    requires forall x | x in ids :: x in rows
    ensures |r| == |ids| && forall i | 0 <= i < |ids| :: r[i] == ItemOf(ids[i], rows[ids[i]])
  {
    seq(|ids|, i requires 0 <= i < |ids| => ItemOf(ids[i], rows[ids[i]]))
  }

  ghost function Listed(items: Stored.Table, dictionary: string): seq<Item> {
    var rows := RowsOf(items, dictionary);
    InOrderOnce(rows.Keys);
    ReadRows(rows, InOrder(rows.Keys))
  }

  lemma ListedLists(items: Stored.Table, dictionary: string)
    ensures Lists(items, dictionary, Listed(items, dictionary))
  {
    var rows := RowsOf(items, dictionary);
    var ids, stored := InOrder(rows.Keys), Listed(items, dictionary);
    InOrderOnce(rows.Keys);
    forall i | 0 <= i < |stored|
      ensures Stored.LiveIn(items, dictionary, stored[i].id) && stored[i] == ItemOf(stored[i].id, items[stored[i].id])
    {
      assert ids[i] in ids;
    }
    forall x | x in items && Stored.LiveIn(items, dictionary, x)
      ensures ItemOf(x, items[x]) in stored
    {
      assert x in ids;
      var i :| 0 <= i < |ids| && ids[i] == x;
      assert stored[i] == ItemOf(x, items[x]);
    }
  }

  /** The version a reader finds; 0 stands for a definition that does not exist yet. */
  function VersionOf(s: Store.State, dictionary: string): nat {
    if dictionary in s.definitions then s.definitions[dictionary].version else 0
  }

  /** Whatever a transaction changes about the rows of a dictionary, it raises that dictionary's version. */
  lemma VersionTells(limits: Store.Limits, s: Store.State, change: Store.Change, dictionary: string)
    requires Store.Accepts(limits, s, change)
    ensures var t := Store.Applied(limits, s, change);
            && VersionOf(s, dictionary) <= VersionOf(t, dictionary)
            && (VersionOf(s, dictionary) == VersionOf(t, dictionary) ==>
               RowsOf(s.items, dictionary) == RowsOf(t.items, dictionary))
  {}

  // ---- The instance ---------------------------------------------------------

  ghost predicate Commits(limits: Store.Limits, s: Store.State, t: Store.State) {
    exists change :: Store.Accepts(limits, s, change) && t == Store.Applied(limits, s, change)
  }

  ghost function TreeQueries(limits: Store.Limits, rules: Rules, dictionary: string): Queries<Store.State> {
    Queries((q: Query, s: Store.State) => StaticAnswer(rules, q, Listed(s.items, dictionary)),
            (q: Query) => Canonical(rules.lower, q),
            (q: Query, result: Answer) => Trusted(rules, q, 0, 0, result),
            (s: Store.State) => VersionOf(s, dictionary),
            (s: Store.State) => Store.Committed(limits, s),
            (s: Store.State, t: Store.State) => Commits(limits, s, t))
  }

  lemma TreeKeysDecide(limits: Store.Limits, rules: Rules, dictionary: string)
    ensures KeyDecides(TreeQueries(limits, rules, dictionary))
  {
    var w := TreeQueries(limits, rules, dictionary);
    forall a, b, s {:trigger w.answer(a, s), w.answer(b, s)} | w.key(a) == w.key(b)
      ensures w.answer(a, s) == w.answer(b, s)
    {
      SameAnswer(rules, a, b, Listed(s.items, dictionary));
    }
  }

  /** The item and definition transactions never change an answer under an unchanged version. */
  lemma TreeVersionsDecide(limits: Store.Limits, rules: Rules, dictionary: string)
    ensures VersionDecides(TreeQueries(limits, rules, dictionary))
  {
    var w := TreeQueries(limits, rules, dictionary);
    forall s, t | w.sound(s) && w.commits(s, t)
      ensures w.sound(t) && w.version(s) <= w.version(t) && (w.version(s) == w.version(t) ==> SameAnswers(w, s, t))
    {
      var change :| Store.Accepts(limits, s, change) && t == Store.Applied(limits, s, change);
      Store.StepKeeps(limits, s, change);
      VersionTells(limits, s, change, dictionary);
    }
  }

  // ---- What every run of readers and writers guarantees ---------------------

  /** Every reply is the uncached answer at some committed state between the reader's version read and its return. */
  lemma RepliesAreFresh(limits: Store.Limits, rules: Rules, dictionary: string, states: seq<System<Store.State>>,
          steps: seq<Step<Store.State>>, n: nat, i: nat)
    requires Run(TreeQueries(limits, rules, dictionary), states, steps) && n < |states| && i < |states[n].replies|
    ensures var r, history := states[n].replies[i], states[n].history;
            exists j :: r.begun <= j <= r.ended < |history|
                && StaticAnswer(rules, r.q, Listed(history[j].items, dictionary)) == r.outcome
  {
    var w := TreeQueries(limits, rules, dictionary);
    TreeKeysDecide(limits, rules, dictionary);
    TreeVersionsDecide(limits, rules, dictionary);
    RunKeeps(w, states, steps, n);
    var r, history := states[n].replies[i], states[n].history;
    assert ReplySound(w, history, r);
    var j :| r.begun <= j <= r.ended < |history| && w.answer(r.q, history[j]) == r.outcome;
    assert StaticAnswer(rules, r.q, Listed(history[j].items, dictionary)) == r.outcome;
  }

  /** No reply of any run is refused as an invalid tree: only size and count refuse a query. */
  lemma OnlyLimitsRefuse(limits: Store.Limits, rules: Rules, dictionary: string, states: seq<System<Store.State>>,
          steps: seq<Step<Store.State>>, n: nat, i: nat)
    requires Run(TreeQueries(limits, rules, dictionary), states, steps) && n < |states| && i < |states[n].replies|
    requires Compatible(limits, rules)
    ensures states[n].replies[i].outcome != Invalid
  {
    var w := TreeQueries(limits, rules, dictionary);
    TreeKeysDecide(limits, rules, dictionary);
    TreeVersionsDecide(limits, rules, dictionary);
    RunKeeps(w, states, steps, n);
    var r, history := states[n].replies[i], states[n].history;
    assert ReplySound(w, history, r);
    var j :| r.begun <= j <= r.ended < |history| && w.answer(r.q, history[j]) == r.outcome;
    assert w.sound(history[j]);
    ListedLists(history[j].items, dictionary);
    CommittedTreeAnswers(limits, rules, history[j], dictionary, r.q, Listed(history[j].items, dictionary));
  }

  /** The check on a cached result never turns away an entry that a tree query stored. */
  lemma EntriesAreTrusted(limits: Store.Limits, rules: Rules, dictionary: string, states: seq<System<Store.State>>,
          steps: seq<Step<Store.State>>, n: nat, reader: nat)
    requires Run(TreeQueries(limits, rules, dictionary), states, steps) && n < |states| && Compatible(limits, rules)
    requires reader in states[n].readers
    requires KeyOf(TreeQueries(limits, rules, dictionary), states[n].readers[reader]) in states[n].cache
    ensures var r := states[n].readers[reader];
            Trusted(rules, r.q, 0, 0, states[n].cache[KeyOf(TreeQueries(limits, rules, dictionary), r)])
  {
    var w, s := TreeQueries(limits, rules, dictionary), states[n];
    TreeKeysDecide(limits, rules, dictionary);
    TreeVersionsDecide(limits, rules, dictionary);
    RunKeeps(w, states, steps, n);
    var r := s.readers[reader];
    HitIsFresh(w, s.history, r, s.cache[KeyOf(w, r)]);
    var j :| r.begun <= j < |s.history| && w.answer(r.q, s.history[j]) == Answered(s.cache[KeyOf(w, r)]);
    assert w.sound(s.history[j]);
    ListedLists(s.history[j].items, dictionary);
    ListedIsWellFormed(limits, rules, s.history[j], dictionary, Listed(s.history[j].items, dictionary));
    AnswerTrusted(rules, r.q, Listed(s.history[j].items, dictionary));
  }
}
