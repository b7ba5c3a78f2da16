/**
  The wrapper that edits the lifecycle tags and logs the net change.

  The wrapped tags file is a set of tags that reports whether an edit changed it.  The two logs
  are dictionaries of dictionaries of dictionaries, as the report generator reads them; `Flat`
  is what they say.
 */
module TagChangelog {
  import opened Options

  datatype Tag = Tag(kind: string, test: string, tag: string)

  /** kind -> test -> tag -> failure rate */
  type Log = map<string, map<string, map<string, real>>>

  ghost predicate Has(log: Log, t: Tag) {
    t.kind in log && t.test in log[t.kind] && t.tag in log[t.kind][t.test]
  }

  ghost function Rate(log: Log, t: Tag): real
    requires Has(log, t)
  {
    log[t.kind][t.test][t.tag]
  }

  /** No inner dictionary is empty. */
  ghost predicate Compact(log: Log) {
    && (forall k :: k in log ==> log[k] != map[])
    && (forall k, e :: k in log && e in log[k] ==> log[k][e] != map[])
  }

  /** The tags that a log mentions, with their rates. */
  ghost function Flat(log: Log): map<Tag, real> {
    map k, e, g | k in log && e in log[k] && g in log[k][e] :: Tag(k, e, g) := log[k][e][g]
  }

  lemma FlatIs(log: Log, t: Tag)
    ensures t in Flat(log) <==> Has(log, t)
    ensures Has(log, t) ==> Flat(log)[t] == Rate(log, t)
  {
    if Has(log, t) {
      assert Tag(t.kind, t.test, t.tag) == t;
    }
  }

  // ----- Edits of a log -----

  /** `log.setdefault(kind, {}).setdefault(test, {})[tag] = rate` */
  function Put(log: Log, t: Tag, rate: real): Log {
    var kinds := if t.kind in log then log[t.kind] else map[];
    var tests := if t.test in kinds then kinds[t.test] else map[];
    log[t.kind := kinds[t.test := tests[t.tag := rate]]]
  }

  /** Removes a tag, and every dictionary that this leaves empty. */
  function Cancel(log: Log, t: Tag): Log
    requires t.kind in log && t.test in log[t.kind]
  {
    var tests := log[t.kind][t.test] - {t.tag};
    var kinds := if tests == map[] then log[t.kind] - {t.test} else log[t.kind][t.test := tests];
    if kinds == map[] then log - {t.kind} else log[t.kind := kinds]
  }

  lemma PutHas(log: Log, t: Tag, rate: real, u: Tag)
    ensures Has(Put(log, t, rate), u) <==> u == t || Has(log, u)
    ensures u == t ==> Rate(Put(log, t, rate), u) == rate
    ensures u != t && Has(log, u) ==> Rate(Put(log, t, rate), u) == Rate(log, u)
  {
  }

  lemma CancelHas(log: Log, t: Tag, u: Tag)
    requires Has(log, t)
    ensures Has(Cancel(log, t), u) <==> u != t && Has(log, u)
    ensures u != t && Has(log, u) ==> Rate(Cancel(log, t), u) == Rate(log, u)
  {
    var tests := log[t.kind][t.test] - {t.tag};
    var kinds := if tests == map[] then log[t.kind] - {t.test} else log[t.kind][t.test := tests];
    if u != t && Has(log, u) {
      if u.kind == t.kind {
        if u.test == t.test {
          assert u.tag in tests;
          assert u.test in kinds;
        } else {
          assert u.test in kinds;
        }
      }
    }
  }

  lemma PutCompact(log: Log, t: Tag, rate: real)
    requires Compact(log)
    ensures Compact(Put(log, t, rate))
  {
    var r := Put(log, t, rate);
    assert t.tag in r[t.kind][t.test] && t.test in r[t.kind];
  }

  lemma PutIsFlat(log: Log, t: Tag, rate: real)
    requires Compact(log)
    ensures Flat(Put(log, t, rate)) == Flat(log)[t := rate] && Compact(Put(log, t, rate))
  {
    hide Put, Flat, Compact, Has, Rate;
    PutCompact(log, t, rate);
    var r := Put(log, t, rate);
    forall u
      ensures u in Flat(r) <==> u == t || u in Flat(log)
      ensures u in Flat(r) ==> Flat(r)[u] == if u == t then rate else Flat(log)[u]
    {
      PutHas(log, t, rate, u);
      FlatIs(log, u);
      FlatIs(r, u);
    }
  }

  lemma CancelCompact(log: Log, t: Tag)
    requires Compact(log) && Has(log, t)
    ensures Compact(Cancel(log, t))
  {
  }

  lemma MapWithout(m: map<Tag, real>, r: map<Tag, real>, t: Tag)
    requires forall u :: u in r <==> u != t && u in m
    requires forall u :: u in r ==> r[u] == m[u]
    ensures r == m - {t}
  {
    assert r.Keys == (m - {t}).Keys;
  }

  lemma CancelIsFlat(log: Log, t: Tag)
    requires Compact(log) && Has(log, t)
    ensures Flat(Cancel(log, t)) == Flat(log) - {t} && Compact(Cancel(log, t))
  {
    assert t.kind in log && t.test in log[t.kind];
    hide *;
    CancelCompact(log, t);
    var r := Cancel(log, t);
    forall u
      ensures u in Flat(r) <==> u != t && u in Flat(log)
      ensures u in Flat(r) ==> Flat(r)[u] == Flat(log)[u]
    {
      CancelHas(log, t, u);
      FlatIs(log, u);
      FlatIs(r, u);
    }
    MapWithout(Flat(log), Flat(r), t);
  }

  // ----- The net change over any run -----

  datatype Edit = Add(t: Tag, rate: real) | Remove(t: Tag, rate: real)

  datatype State = State(tags: set<Tag>, added: map<Tag, real>, removed: map<Tag, real>)

  function Apply(e: Edit, s: State): State {
    match e
    case Add(t, rate) =>
      if t in s.tags then s
      else if t in s.removed then State(s.tags + {t}, s.added, s.removed - {t})
      else State(s.tags + {t}, s.added[t := rate], s.removed)
    case Remove(t, rate) =>
      if t !in s.tags then s
      else if t in s.added then State(s.tags - {t}, s.added - {t}, s.removed)
      else State(s.tags - {t}, s.added, s.removed[t := rate])
  }

  function Run(edits: seq<Edit>, s: State): State {
    if edits == [] then s else Apply(edits[|edits| - 1], Run(edits[..|edits| - 1], s))
  }

  /** The tags after the edits, as a store without any log would have them. */
  function TagsAfter(edits: seq<Edit>, tags: set<Tag>): set<Tag> {
    if edits == [] then tags
    else
      var before := TagsAfter(edits[..|edits| - 1], tags);
      match edits[|edits| - 1]
      case Add(t, _) => before + {t}
      case Remove(t, _) => before - {t}
  }

  /** The rate given with the last edit that changed whether `t` is a tag, if any did. */
  function LastChange(edits: seq<Edit>, tags: set<Tag>, t: Tag): Option<real> {
    if edits == [] then None
    else
      var init, last := edits[..|edits| - 1], edits[|edits| - 1];
      if last.t == t && (last.Add? <==> t !in TagsAfter(init, tags)) then Some(last.rate) else LastChange(init, tags, t)
  }

  /**
    After any edits, the logs are the exact net difference to the initial tags: what is added is
    there now and was not before, what is removed was and is not, each with the rate of the edit
    that last changed it.
   */
  lemma {:induction false} LogsAreNetDifference(edits: seq<Edit>, initial: set<Tag>)
    ensures var s := Run(edits, State(initial, map[], map[]));
            && s.tags == TagsAfter(edits, initial)
            && s.added.Keys == s.tags - initial
            && s.removed.Keys == initial - s.tags
            && (forall t :: t in s.added ==> Some(s.added[t]) == LastChange(edits, initial, t))
            && (forall t :: t in s.removed ==> Some(s.removed[t]) == LastChange(edits, initial, t))
  {
    if edits != [] {
      var init, last := edits[..|edits| - 1], edits[|edits| - 1];
      LogsAreNetDifference(init, initial);
    }
  }

  // ----- The wrapper -----

  class TagsConfigWithChangelog {
    var lifecycle: set<Tag>
    var added: Log
    var removed: Log

    ghost predicate Valid()
      reads this
    {
      Compact(added) && Compact(removed)
    }

    /** What the wrapper stands for. */
    ghost function Value(): State
      reads this
    {
      State(lifecycle, Flat(added), Flat(removed))
    }

    constructor (tags: set<Tag>)
      ensures Valid() && Value() == State(tags, map[], map[])
    {
      lifecycle, added, removed := tags, map[], map[];
      new;
      assert Flat(added) == map[];
    }

    method AddTag(t: Tag, rate: real)
      requires Valid()
      modifies this
      ensures Valid() && Value() == Apply(Add(t, rate), old(Value()))
    {
      hide Flat, Compact, Put, Cancel;
      var changed := t !in lifecycle;
      lifecycle := lifecycle + {t};
      if changed {
        FlatIs(removed, t);
        if t.kind in removed && t.test in removed[t.kind] && t.tag in removed[t.kind][t.test] {
          CancelIsFlat(removed, t);
          removed := Cancel(removed, t);
        } else {
          PutIsFlat(added, t, rate);
          added := Put(added, t, rate);
        }
      } else {
        assert lifecycle == old(lifecycle);
      }
    }

    method RemoveTag(t: Tag, rate: real)
      requires Valid()
      modifies this
      ensures Valid() && Value() == Apply(Remove(t, rate), old(Value()))
    {
      hide Flat, Compact, Put, Cancel;
      var changed := t in lifecycle;
      lifecycle := lifecycle - {t};
      if changed {
        FlatIs(added, t);
        if t.kind in added && t.test in added[t.kind] && t.tag in added[t.kind][t.test] {
          CancelIsFlat(added, t);
          added := Cancel(added, t);
        } else {
          PutIsFlat(removed, t, rate);
          removed := Put(removed, t, rate);
        }
      } else {
        assert lifecycle == old(lifecycle);
      }
    }
  }
}
