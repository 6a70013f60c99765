/** The SUB0 topic filter: an ordered set of prefixes, scanned up to the body. */
module TopicFilter {
  import opened Bytes
  import opened Messages

  type Topic = seq<byte>

  // ── Byte-lexicographic order ────────────────────────────────────────────

  /** The order of `[u8]`: a proper prefix sorts before its extensions. */
  predicate LexLess(a: Topic, b: Topic)
    decreases |a|
  {
    b != [] && (a == [] || a[0] < b[0] || (a[0] == b[0] && LexLess(a[1..], b[1..])))
  }

  predicate LexAtMost(a: Topic, b: Topic) {
    a == b || LexLess(a, b)
  }

  lemma {:induction false} LexTotal(a: Topic, b: Topic)
    ensures LexLess(a, b) || a == b || LexLess(b, a)
    ensures !(LexLess(a, b) && LexLess(b, a))
    ensures LexLess(a, b) ==> a != b
    decreases |a|
  {
    if a != [] && b != [] {
      LexTotal(a[1..], b[1..]);
      assert a == [a[0]] + a[1..] && b == [b[0]] + b[1..];
    }
  }

  lemma {:induction false} LexTransitive(a: Topic, b: Topic, c: Topic)
    requires LexLess(a, b) && LexLess(b, c)
    ensures LexLess(a, c)
    decreases |a|
  {
    if a != [] && a[0] == b[0] == c[0] {
      LexTransitive(a[1..], b[1..], c[1..]);
    }
  }

  /** A prefix sorts no later than what it is a prefix of. */
  lemma {:induction false} PrefixSortsFirst(p: Topic, body: Topic)
    requires p <= body
    ensures LexAtMost(p, body)
    decreases |p|
  {
    if p != [] {
      PrefixSortsFirst(p[1..], body[1..]);
      assert p == [p[0]] + p[1..] && body == [body[0]] + body[1..];
    }
  }

  // ── BTreeSet as a strictly sorted sequence ──────────────────────────────

  predicate Sorted(s: seq<Topic>) {
    forall i, j :: 0 <= i < j < |s| ==> LexLess(s[i], s[j])
  }

  function Members(s: seq<Topic>): set<Topic> {
    set t | t in s
  }

  /** `BTreeSet::insert` */
  function Insert(s: seq<Topic>, t: Topic): seq<Topic>
    decreases |s|
  {
    if s == [] || LexLess(t, s[0]) then [t] + s
    else if s[0] == t then s
    else [s[0]] + Insert(s[1..], t)
  }

  /** `BTreeSet::remove` */
  function Remove(s: seq<Topic>, t: Topic): seq<Topic>
    decreases |s|
  {
    if s == [] then []
    else if s[0] == t then s[1..]
    else [s[0]] + Remove(s[1..], t)
  }

  lemma {:induction false} SortedTail(s: seq<Topic>)
    requires Sorted(s) && s != []
    ensures Sorted(s[1..]) && forall t :: t in s[1..] ==> LexLess(s[0], t)
  {
  }

  lemma {:induction false} SortedCons(t: Topic, s: seq<Topic>)
    requires Sorted(s) && (forall x :: x in s ==> LexLess(t, x))
    ensures Sorted([t] + s)
  {
    var r := [t] + s;
    forall i, j | 0 <= i < j < |r|
      ensures LexLess(r[i], r[j])
    {
      assert r[j] == s[j - 1];
      if i > 0 {
        assert r[i] == s[i - 1];
      }
    }
  }

  lemma {:induction false} InsertLaw(s: seq<Topic>, t: Topic)
    requires Sorted(s)
    ensures Sorted(Insert(s, t)) && Members(Insert(s, t)) == Members(s) + {t}
    decreases |s|
  {
    if s == [] {
      SortedCons(t, s);
    } else if LexLess(t, s[0]) {
      SortedTail(s);
      forall x | x in s
        ensures LexLess(t, x)
      {
        if x != s[0] {
          assert x in s[1..];
          LexTransitive(t, s[0], x);
        }
      }
      SortedCons(t, s);
    } else if s[0] != t {
      SortedTail(s);
      LexTotal(s[0], t);
      InsertLaw(s[1..], t);
      forall x | x in Insert(s[1..], t)
        ensures LexLess(s[0], x)
      {
        assert x in Members(Insert(s[1..], t));
      }
      SortedCons(s[0], Insert(s[1..], t));
      assert Members(s) == {s[0]} + Members(s[1..]);
      assert Members(Insert(s, t)) == {s[0]} + Members(Insert(s[1..], t));
    }
  }

  lemma {:induction false} RemoveLaw(s: seq<Topic>, t: Topic)
    requires Sorted(s)
    ensures Sorted(Remove(s, t)) && Members(Remove(s, t)) == Members(s) - {t}
    decreases |s|
  {
    if s != [] {
      SortedTail(s);
      assert Members(s) == {s[0]} + Members(s[1..]);
      if s[0] == t {
        LexTotal(t, t);
      } else {
        RemoveLaw(s[1..], t);
        forall x | x in Remove(s[1..], t)
          ensures LexLess(s[0], x)
        {
          assert x in Members(Remove(s[1..], t));
        }
        SortedCons(s[0], Remove(s[1..], t));
        assert Members(Remove(s, t)) == {s[0]} + Members(Remove(s[1..], t));
      }
    }
  }

  // ── The filter ──────────────────────────────────────────────────────────

  /** `range(..=body)`: the scan stops at the first topic above the body. */
  function RangeUpTo(s: seq<Topic>, body: Topic): (r: seq<Topic>)
    decreases |s|
  {
    if s == [] || !LexAtMost(s[0], body) then [] else [s[0]] + RangeUpTo(s[1..], body)
  }

  /** `.any(|prefix| body.starts_with(prefix))` */
  predicate AnyPrefix(s: seq<Topic>, body: Topic)
    decreases |s|
  {
    s != [] && (s[0] <= body || AnyPrefix(s[1..], body))
  }

  predicate Matches(s: seq<Topic>, body: Topic) {
    AnyPrefix(RangeUpTo(s, body), body)
  }

  /** The naive test: some subscribed topic is a prefix of the body. */
  ghost predicate Wanted(topics: set<Topic>, body: Topic) {
    exists t :: t in topics && t <= body
  }

  /** The range scan finds a prefix exactly when there is one. */
  lemma {:induction false} ScanIsComplete(s: seq<Topic>, body: Topic)
    requires Sorted(s)
    ensures Matches(s, body) <==> Wanted(Members(s), body)
    decreases |s|
  {
    if s == [] {
      assert Members(s) == {};
    } else {
      SortedTail(s);
      ScanIsComplete(s[1..], body);
      assert Members(s) == {s[0]} + Members(s[1..]);
      if LexAtMost(s[0], body) {
        var r := RangeUpTo(s, body);
        assert r[1..] == RangeUpTo(s[1..], body);
        if s[0] <= body {
          assert s[0] in Members(s);
        }
      } else {
        forall t | t in Members(s)
          ensures !(t <= body)
        {
          if t <= body {
            PrefixSortsFirst(t, body);
            if t != body {
              assert t in s[1..];
              LexTransitive(s[0], t, body);
            }
          }
        }
      }
    }
  }

  // ── Whole runs ──────────────────────────────────────────────────────────

  datatype Change = Subscribe(topic: Topic) | Unsubscribe(topic: Topic)

  function Apply(s: seq<Topic>, c: Change): seq<Topic> {
    match c
    case Subscribe(t) => Insert(s, t)
    case Unsubscribe(t) => Remove(s, t)
  }

  function ApplyAll(s: seq<Topic>, changes: seq<Change>): seq<Topic>
    decreases |changes|
  {
    if changes == [] then s else ApplyAll(Apply(s, changes[0]), changes[1..])
  }

  /** A topic is subscribed when the last change that names it subscribes it. */
  ghost predicate Subscribed(changes: seq<Change>, t: Topic)
    decreases |changes|
  {
    changes != [] &&
    var last := changes[|changes| - 1];
    if last.topic == t then last.Subscribe? else Subscribed(changes[..|changes| - 1], t)
  }

  lemma {:induction false} ApplyLast(s: seq<Topic>, changes: seq<Change>)
    requires changes != []
    ensures ApplyAll(s, changes) == Apply(ApplyAll(s, changes[..|changes| - 1]), changes[|changes| - 1])
    decreases |changes|
  {
    var n := |changes|;
    if n == 1 {
      assert changes[1..] == [] && changes[..0] == [];
    } else {
      assert changes[..n - 1][1..] == changes[1..][..n - 2];
      ApplyLast(Apply(s, changes[0]), changes[1..]);
    }
  }

  lemma {:induction false} HistoryDecides(changes: seq<Change>)
    ensures Sorted(ApplyAll([], changes))
    ensures forall t :: t in Members(ApplyAll([], changes)) <==> Subscribed(changes, t)
    decreases |changes|
  {
    if changes != [] {
      var n := |changes|;
      HistoryDecides(changes[..n - 1]);
      ApplyLast([], changes);
      var before := ApplyAll([], changes[..n - 1]);
      InsertLaw(before, changes[n - 1].topic);
      RemoveLaw(before, changes[n - 1].topic);
    }
  }

  /** Some topic whose last change was a subscription is a prefix of the body. */
  ghost predicate Passes(changes: seq<Change>, body: Topic) {
    exists t :: Subscribed(changes, t) && t <= body
  }

  /** After every sequence of subscribe and unsubscribe, the scan lets through
      exactly the messages that pass. */
  lemma {:induction false} FilterIsExact(changes: seq<Change>, body: Topic)
    ensures Matches(ApplyAll([], changes), body) <==> Passes(changes, body)
  {
    HistoryDecides(changes);
    var topics := Members(ApplyAll([], changes));
    ScanIsComplete(ApplyAll([], changes), body);
    if Wanted(topics, body) {
      var t :| t in topics && t <= body;
      assert Subscribed(changes, t);
    }
    if Passes(changes, body) {
      var t :| Subscribed(changes, t) && t <= body;
      assert t in topics;
    }
  }

  class Sub0State {
    var subscriptions: seq<Topic>
    ghost var changes: seq<Change>

    ghost predicate Valid()
      reads this
    {
      subscriptions == ApplyAll([], changes) && Sorted(subscriptions)
    }

    constructor ()
      ensures Valid() && changes == []
    {
      subscriptions, changes := [], [];
    }

    method SubscribeTo(prefix: Topic)
      requires Valid()
      modifies this
      ensures Valid() && changes == old(changes) + [Subscribe(prefix)]
      ensures Members(subscriptions) == old(Members(subscriptions)) + {prefix}
    {
      InsertLaw(subscriptions, prefix);
      subscriptions, changes := Insert(subscriptions, prefix), changes + [Subscribe(prefix)];
      ApplyLast([], changes);
      assert changes[..|changes| - 1] == old(changes);
    }

    method UnsubscribeFrom(prefix: Topic)
      requires Valid()
      modifies this
      ensures Valid() && changes == old(changes) + [Unsubscribe(prefix)]
      ensures Members(subscriptions) == old(Members(subscriptions)) - {prefix}
    {
      RemoveLaw(subscriptions, prefix);
      subscriptions, changes := Remove(subscriptions, prefix), changes + [Unsubscribe(prefix)];
      ApplyLast([], changes);
      assert changes[..|changes| - 1] == old(changes);
    }

    predicate IsEmpty()
      reads this
    {
      subscriptions == []
    }

    /** Does the filter let this message through? */
    method MatchesMessage(msg: Msg) returns (yes: bool)
      requires Valid()
      ensures yes <==> Passes(changes, msg.body)
      ensures IsEmpty() ==> !yes
    {
      FilterIsExact(changes, msg.body);
      yes := Matches(subscriptions, msg.body);
    }
  }
}
