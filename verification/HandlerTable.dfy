/** The table of subscribed topic filters: which slot a new one takes, which slots unsubscribing
    clears, and which slots a resubscription serves. */
module HandlerTable {
  import opened TopicMatch

  const NUM_HANDLERS: nat := 5

  /** The first slot that is not in use, or the size of the table. */
  function FirstFree(slots: seq<Slot>): (i: nat)
    ensures i <= |slots| && (i < |slots| ==> slots[i].Unused?)
    ensures forall k :: 0 <= k < i ==> slots[k].Registered?
  {
    if slots == [] || slots[0].Unused? then 0 else 1 + FirstFree(slots[1..])
  }

  /** The filters in use. */
  function Filters(slots: seq<Slot>): set<string> {
    set i | 0 <= i < |slots| && slots[i].Registered? :: slots[i].filter
  }

  predicate HasFilter(s: Slot, filter: string) {
    s.Registered? && s.filter == filter
  }

  predicate HasOther(s: Slot, filter: string) {
    s.Registered? && s.filter != filter
  }

  /** The table with every slot of a filter cleared. */
  function Cleared(slots: seq<Slot>, filter: string): seq<Slot> {
    seq(|slots|, i requires 0 <= i < |slots| => if HasFilter(slots[i], filter) then Unused else slots[i])
  }

  /** The filters a resubscription serves: those before the first slot not in use. */
  function Renewed(slots: seq<Slot>): set<string> {
    Filters(slots[..FirstFree(slots)])
  }

  /** What is known once the first i slots have been served. */
  function WithFirst(known: set<string>, slots: seq<Slot>, i: nat): set<string>
    requires i <= |slots|
  {
    known + Filters(slots[..i])
  }

  /** No unused slot stands before one in use. */
  predicate Compact(slots: seq<Slot>) {
    forall i, j :: 0 <= i < j < |slots| && slots[j].Registered? ==> slots[i].Registered?
  }

  /** No filter is registered twice. */
  predicate Distinct(slots: seq<Slot>) {
    forall i, j :: 0 <= i < j < |slots| && slots[i].Registered? && slots[j].Registered? ==>
      slots[i].filter != slots[j].filter
  }

  /** The filters of one more slot. */
  lemma NextFilter(slots: seq<Slot>, i: nat)
    requires i < |slots| && slots[i].Registered?
    ensures Filters(slots[..i + 1]) == Filters(slots[..i]) + {slots[i].filter}
  {
    var a, b := slots[..i], slots[..i + 1];
    forall f | f in Filters(b)
      ensures f in Filters(a) + {slots[i].filter}
    {
      var k :| 0 <= k < |b| && b[k].Registered? && b[k].filter == f;
      if k < i { assert a[k] == b[k]; }
    }
    forall f | f in Filters(a)
      ensures f in Filters(b)
    {
      var k :| 0 <= k < |a| && a[k].Registered? && a[k].filter == f;
      assert b[k] == a[k];
    }
    assert b[i] == slots[i];
  }

  lemma AddFilter(known: set<string>, slots: seq<Slot>, i: nat)
    requires i < |slots|
    ensures slots[i].Registered? ==> WithFirst(known, slots, i) + {slots[i].filter} == WithFirst(known, slots, i + 1)
  {
    if slots[i].Registered? { NextFilter(slots, i); }
  }

  lemma FirstAndLast(known: set<string>, slots: seq<Slot>)
    ensures WithFirst(known, slots, 0) == known
    ensures WithFirst(known, slots, FirstFree(slots)) == known + Renewed(slots)
  {
  }

  /** Filters in the first slots are filters of the table. */
  lemma FirstFilters(slots: seq<Slot>, n: nat)
    requires n <= |slots|
    ensures Filters(slots[..n]) <= Filters(slots)
  {
    forall f | f in Filters(slots[..n])
      ensures f in Filters(slots)
    {
      var k :| 0 <= k < n && slots[..n][k].Registered? && slots[..n][k].filter == f;
      assert slots[k].filter == f;
    }
  }

  /** A resubscription serves every registered filter if no unused slot stands before one in use,
      and, when no filter is registered twice, only then. */
  lemma RenewsAll(slots: seq<Slot>)
    ensures Compact(slots) ==> Renewed(slots) == Filters(slots)
    ensures Distinct(slots) ==> (Renewed(slots) == Filters(slots) <==> Compact(slots))
  {
    var n := FirstFree(slots);
    FirstFilters(slots, n);
    if Compact(slots) {
      forall f | f in Filters(slots)
        ensures f in Renewed(slots)
      {
        var k :| 0 <= k < |slots| && slots[k].Registered? && slots[k].filter == f;
        assert k < n;
        assert slots[..n][k] == slots[k];
      }
    } else if Distinct(slots) {
      var k := BehindFree(slots);
      if slots[k].filter in Renewed(slots) {
        var i := RenewedSlot(slots, slots[k].filter);
        assert false;
      }
      assert slots[k].filter in Filters(slots);
    }
  }

  lemma RenewedSlot(slots: seq<Slot>, filter: string) returns (i: nat)
    requires filter in Renewed(slots)
    ensures i < FirstFree(slots) && slots[i].Registered? && slots[i].filter == filter
  {
    var served := slots[..FirstFree(slots)];
    var k :| 0 <= k < |served| && served[k].Registered? && served[k].filter == filter;
    i := k;
  }

  /** In a table with a hole some slot in use stands behind the first free one. */
  lemma BehindFree(slots: seq<Slot>) returns (k: nat)
    requires !Compact(slots)
    ensures FirstFree(slots) < k < |slots| && slots[k].Registered?
  {
    var i, j :| 0 <= i < j < |slots| && slots[j].Registered? && !slots[i].Registered?;
    k := j;
  }

  /** Subscribing keeps the table without holes, and adds its filter. */
  lemma RegisterFills(slots: seq<Slot>, s: Slot)
    requires FirstFree(slots) < |slots| && s.Registered?
    ensures var slots' := slots[FirstFree(slots) := s];
      && Filters(slots') == Filters(slots) + {s.filter}
      && (Compact(slots) ==> Compact(slots'))
  {
    var n := FirstFree(slots);
    var slots' := slots[n := s];
    forall f | f in Filters(slots)
      ensures f in Filters(slots')
    {
      var k :| 0 <= k < |slots| && slots[k].Registered? && slots[k].filter == f;
      assert slots'[k] == slots[k];
    }
    forall f | f in Filters(slots')
      ensures f in Filters(slots) + {s.filter}
    {
      var k :| 0 <= k < |slots| && slots'[k].Registered? && slots'[k].filter == f;
      if k != n { assert slots[k].filter == f; }
    }
    assert slots'[n].filter == s.filter;
  }

  /** Some other filter stands behind a slot of this one. */
  predicate IsBeforeOther(slots: seq<Slot>, filter: string) {
    exists i, j :: 0 <= i < j < |slots| && HasFilter(slots[i], filter) && HasOther(slots[j], filter)
  }

  /** Unsubscribing removes its filter and nothing else, and leaves a hole in a table without holes
      if and only if another filter stands behind a slot of it. */
  lemma ClearLeavesHole(slots: seq<Slot>, filter: string)
    ensures Filters(Cleared(slots, filter)) == Filters(slots) - {filter}
    ensures Compact(slots) ==> (Compact(Cleared(slots, filter)) <==> !IsBeforeOther(slots, filter))
  {
    var slots' := Cleared(slots, filter);
    forall f | f in Filters(slots) - {filter}
      ensures f in Filters(slots')
    {
      var k :| 0 <= k < |slots| && slots[k].Registered? && slots[k].filter == f;
      assert slots'[k] == slots[k];
    }
    forall f | f in Filters(slots')
      ensures f in Filters(slots) - {filter}
    {
      var k :| 0 <= k < |slots| && slots'[k].Registered? && slots'[k].filter == f;
      assert slots[k] == slots'[k];
    }
    if Compact(slots) {
      ClearedHole(slots, filter);
    }
  }

  lemma ClearedHole(slots: seq<Slot>, filter: string)
    requires Compact(slots)
    ensures Compact(Cleared(slots, filter)) <==> !IsBeforeOther(slots, filter)
  {
    var slots' := Cleared(slots, filter);
    if IsBeforeOther(slots, filter) {
      var i, j :| 0 <= i < j < |slots| && HasFilter(slots[i], filter) && HasOther(slots[j], filter);
      assert slots'[j].Registered? && slots'[i].Unused?;
    } else {
      forall i, j | 0 <= i < j < |slots| && slots'[j].Registered?
        ensures slots'[i].Registered?
      {
        assert HasOther(slots[j], filter);
        assert slots[i].Registered?;
        assert !HasFilter(slots[i], filter);
      }
    }
  }
}
