/**
 * The call list of the Floss media service (bluetooth_media.rs): the calls
 * the telephony interface reports to hands-free devices, and the list
 * operations its call handlers are built from.
 */
module MediaCalls {
  /** The state of one call, or of the phone as a whole. */
  datatype CallState = Idle | Incoming | Dialing | Alerting | Active | Held

  /** One entry of `call_list`. */
  datatype CallInfo = CallInfo(index: int, dirIncoming: bool, state: CallState, number: string)

  /** The number of calls in a given state. */
  function Count(calls: seq<CallInfo>, s: CallState): (n: nat)
    ensures n <= |calls|
  {
    if |calls| == 0 then 0
    else (if calls[0].state == s then 1 else 0) + Count(calls[1..], s)
  }

  lemma {:induction false} CountAppend(a: seq<CallInfo>, b: seq<CallInfo>, s: CallState)
    ensures Count(a + b, s) == Count(a, s) + Count(b, s)
  {
    if |a| != 0 {
      assert (a + b)[1..] == a[1..] + b;
      CountAppend(a[1..], b, s);
    } else {
      assert a + b == b;
    }
  }

  /** Replacing one call changes the counts of its old and new states by one. */
  lemma {:induction false} CountUpdate(calls: seq<CallInfo>, k: nat, c: CallInfo, s: CallState)
    requires k < |calls|
    ensures Count(calls[k := c], s) + (if calls[k].state == s then 1 else 0)
         == Count(calls, s) + (if c.state == s then 1 else 0)
  {
    if k != 0 {
      assert calls[k := c][1..] == calls[1..][k - 1 := c];
      CountUpdate(calls[1..], k - 1, c, s);
    } else {
      assert calls[k := c][1..] == calls[1..];
    }
  }

  /** A call in a given state makes that state's count positive. */
  lemma {:induction false} CountPositive(calls: seq<CallInfo>, k: nat)
    requires k < |calls|
    ensures Count(calls, calls[k].state) >= 1
  {
    if k != 0 {
      CountPositive(calls[1..], k - 1);
    }
  }

  /** Every call in one of the given states. */
  lemma {:induction false} CountNone(calls: seq<CallInfo>, s: CallState)
    requires forall k | 0 <= k < |calls| :: calls[k].state != s
    ensures Count(calls, s) == 0
  {
    if |calls| != 0 {
      CountNone(calls[1..], s);
    }
  }

  /** The calls a `retain` keeps: those whose state is not among the removed ones, in list order. */
  function Without(calls: seq<CallInfo>, removed: set<CallState>): (kept: seq<CallInfo>)
    ensures |kept| <= |calls|
  {
    if |calls| == 0 then []
    else if calls[0].state in removed then Without(calls[1..], removed)
    else [calls[0]] + Without(calls[1..], removed)
  }

  /** A call is kept exactly when it was in the list and its state is not removed. */
  lemma {:induction false} WithoutMembers(calls: seq<CallInfo>, removed: set<CallState>)
    ensures forall c :: c in Without(calls, removed) <==> c in calls && c.state !in removed
  {
    if |calls| != 0 {
      WithoutMembers(calls[1..], removed);
      assert calls == [calls[0]] + calls[1..];
    }
  }

  lemma {:induction false} WithoutAppend(a: seq<CallInfo>, b: seq<CallInfo>, removed: set<CallState>)
    ensures Without(a + b, removed) == Without(a, removed) + Without(b, removed)
  {
    if |a| != 0 {
      assert (a + b)[1..] == a[1..] + b;
      WithoutAppend(a[1..], b, removed);
    } else {
      assert a + b == b;
    }
  }

  /** Removing calls empties the removed states' counts and keeps the others. */
  lemma {:induction false} WithoutCount(calls: seq<CallInfo>, removed: set<CallState>, s: CallState)
    ensures Count(Without(calls, removed), s) == if s in removed then 0 else Count(calls, s)
  {
    if |calls| != 0 {
      WithoutCount(calls[1..], removed, s);
      if calls[0].state !in removed {
        var rest := Without(calls[1..], removed);
        assert ([calls[0]] + rest)[1..] == rest;
      }
    }
  }

  /** No two calls share an index. */
  predicate DistinctIndices(calls: seq<CallInfo>)
  {
    forall i, j | 0 <= i < j < |calls| :: calls[i].index != calls[j].index
  }

  predicate IndexUsed(calls: seq<CallInfo>, index: int)
  {
    exists k | 0 <= k < |calls| :: calls[k].index == index
  }

  /** Removing calls keeps the indices distinct. */
  lemma {:induction false} WithoutDistinct(calls: seq<CallInfo>, removed: set<CallState>)
    requires DistinctIndices(calls)
    ensures DistinctIndices(Without(calls, removed))
  {
    if |calls| != 0 {
      var rest := calls[1..];
      assert DistinctIndices(rest) by {
        forall i, j | 0 <= i < j < |rest|
          ensures rest[i].index != rest[j].index
        {
          assert rest[i] == calls[i + 1] && rest[j] == calls[j + 1];
        }
      }
      WithoutDistinct(rest, removed);
      if calls[0].state !in removed {
        var kept := Without(rest, removed);
        forall j | 0 <= j < |kept|
          ensures calls[0].index != kept[j].index
        {
          WithoutMembers(rest, removed);
          assert kept[j] in rest;
          var m :| 0 <= m < |rest| && rest[m] == kept[j];
          assert calls[m + 1] == kept[j];
        }
        assert DistinctIndices([calls[0]] + kept);
      }
    }
  }

  /** `retain`: the loop keeping, in order, the calls whose state is not removed. */
  method Retain(calls: seq<CallInfo>, removed: set<CallState>) returns (kept: seq<CallInfo>)
    ensures kept == Without(calls, removed)
  {
    kept := [];
    var n := 0;
    while n < |calls|
      invariant 0 <= n <= |calls|
      invariant kept == Without(calls[..n], removed)
    {
      assert calls[..n + 1] == calls[..n] + [calls[n]];
      WithoutAppend(calls[..n], [calls[n]], removed);
      if calls[n].state !in removed {
        kept := kept + [calls[n]];
      }
      n := n + 1;
    }
    assert calls[..n] == calls;
  }

  /** The position of the first call in one of the given states, or the length of the list. */
  function FirstWith(calls: seq<CallInfo>, states: set<CallState>): (k: nat)
    ensures k <= |calls|
    ensures k < |calls| ==> calls[k].state in states
    ensures forall j | 0 <= j < k :: calls[j].state !in states
  {
    if |calls| == 0 then 0
    else if calls[0].state in states then 0
    else 1 + FirstWith(calls[1..], states)
  }

  /** The set of indices in use. */
  function IndexSet(calls: seq<CallInfo>): (used: set<int>)
    ensures |used| <= |calls|
    ensures forall x :: x in used <==> IndexUsed(calls, x)
  {
    if |calls| == 0 then {}
    else
      var n := |calls| - 1;
      var init := IndexSet(calls[..n]);
      assert forall x :: IndexUsed(calls, x) <==> IndexUsed(calls[..n], x) || x == calls[n].index by {
        forall x
          ensures IndexUsed(calls, x) ==> IndexUsed(calls[..n], x) || x == calls[n].index
        {
          if IndexUsed(calls, x) {
            var k :| 0 <= k < |calls| && calls[k].index == x;
            if k < n {
              assert calls[..n][k].index == x;
            }
          }
        }
      }
      init + {calls[n].index}
  }

  /** The integers 1 to r. */
  function Range(r: nat): (range: set<int>)
    ensures |range| == r
    ensures forall j :: j in range <==> 1 <= j <= r
  {
    if r == 0 then {} else Range(r - 1) + {r}
  }

  /** If every index from 1 to r is in use, there are at least r calls. */
  lemma UsedIndicesBound(calls: seq<CallInfo>, r: nat)
    requires forall j | 1 <= j <= r :: IndexUsed(calls, j)
    ensures r <= |calls|
  {
    SubsetSize(Range(r), IndexSet(calls));
  }

  lemma SubsetSize(a: set<int>, b: set<int>)
    requires a <= b
    ensures |a| <= |b|
  {
    assert a - b == {};
    assert a * b == a;
    assert a + b == b;
    assert |a + b| == |a - b| + |b - a| + |a * b|;
  }

  /** The state a phone call list is in between operations, with the counters that summarise it. */
  datatype PhoneState = PhoneState(numActive: nat, numHeld: nat, state: CallState)

  /**
   * The counters agree with the list, at most one call is active, the phone
   * state is Incoming or Dialing exactly while one such call waits (and no
   * call is active then), and the call indices are positive and distinct.
   */
  predicate CallsConsistent(calls: seq<CallInfo>, phone: PhoneState)
  {
    && phone.numActive == Count(calls, Active)
    && phone.numHeld == Count(calls, Held)
    && phone.numActive <= 1
    && (phone.state == Idle || phone.state == Incoming || phone.state == Dialing)
    && Count(calls, Incoming) == (if phone.state == Incoming then 1 else 0)
    && Count(calls, Dialing) == (if phone.state == Dialing then 1 else 0)
    && Count(calls, Idle) == 0 && Count(calls, Alerting) == 0
    && (phone.state != Idle ==> phone.numActive == 0)
    && DistinctIndices(calls)
    && (forall k | 0 <= k < |calls| :: calls[k].index >= 1)
  }

  /** The list a reset leaves: empty, or the one active call that stands in for the phone's calls. */
  lemma ResetConsistent(standIn: bool)
    ensures CallsConsistent(if standIn then [CallInfo(1, false, Active, "")] else [],
                            PhoneState(if standIn then 1 else 0, 0, Idle))
  {
    assert [CallInfo(1, false, Active, "")][1..] == [];
  }

  /** The least positive index no call uses: the one `new_call_index` picks. */
  predicate IsLeastFreeIndex(calls: seq<CallInfo>, index: int)
  {
    index >= 1 && !IndexUsed(calls, index) && forall j | 1 <= j < index :: IndexUsed(calls, j)
  }

  /** Appending a call with an unused index keeps the indices distinct and counts one more of its state. */
  lemma AppendFresh(calls: seq<CallInfo>, c: CallInfo)
    requires DistinctIndices(calls) && !IndexUsed(calls, c.index)
    ensures DistinctIndices(calls + [c])
    ensures forall s :: Count(calls + [c], s) == Count(calls, s) + (if c.state == s then 1 else 0)
  {
    forall s
      ensures Count(calls + [c], s) == Count(calls, s) + (if c.state == s then 1 else 0)
    {
      CountAppend(calls, [c], s);
      assert [c][1..] == [];
    }
  }

  /** The list after turning the first call in one of the given states Active, if there is one. */
  function ActivateFirst(calls: seq<CallInfo>, states: set<CallState>): (activated: seq<CallInfo>)
    ensures |activated| == |calls|
  {
    var k := FirstWith(calls, states);
    if k < |calls| then calls[k := calls[k].(state := Active)] else calls
  }

  /**
   * Activating the first call in the given states moves exactly one call from
   * its state to Active.
   */
  lemma ActivateFirstCount(calls: seq<CallInfo>, states: set<CallState>, s: CallState)
    requires FirstWith(calls, states) < |calls|
    ensures var k := FirstWith(calls, states);
            Count(ActivateFirst(calls, states), s) + (if calls[k].state == s then 1 else 0)
            == Count(calls, s) + (if s == Active then 1 else 0)
  {
    var k := FirstWith(calls, states);
    CountUpdate(calls, k, calls[k].(state := Active), s);
  }

  /** Activating a call leaves every index where it was. */
  lemma ActivateFirstIndices(calls: seq<CallInfo>, states: set<CallState>)
    requires DistinctIndices(calls) && forall j | 0 <= j < |calls| :: calls[j].index >= 1
    ensures var after := ActivateFirst(calls, states);
            DistinctIndices(after) && forall j | 0 <= j < |after| :: after[j].index >= 1
  {
    var after := ActivateFirst(calls, states);
    assert forall j | 0 <= j < |calls| :: after[j].index == calls[j].index;
  }

  /**
   * One element of the list after CHLD=2 (hold active, accept held): the first
   * held call becomes active and every active call becomes held.
   */
  function HoldSwapAt(calls: seq<CallInfo>, j: nat): CallInfo
    requires j < |calls|
  {
    if j == FirstWith(calls, {Held}) then calls[j].(state := Active)
    else if calls[j].state == Active then calls[j].(state := Held)
    else calls[j]
  }

  function HoldSwap(calls: seq<CallInfo>): (swapped: seq<CallInfo>)
    ensures |swapped| == |calls|
  {
    seq(|calls|, j requires 0 <= j < |calls| => HoldSwapAt(calls, j))
  }

  lemma CountFrom(calls: seq<CallInfo>, i: nat, s: CallState)
    requires i < |calls|
    ensures Count(calls[i..], s) == (if calls[i].state == s then 1 else 0) + Count(calls[i + 1..], s)
  {
    assert calls[i..][1..] == calls[i + 1..];
  }

  /** Counting after a `retain`, for every state at once. */
  lemma WithoutCounts(calls: seq<CallInfo>, removed: set<CallState>)
    ensures forall s :: Count(Without(calls, removed), s) == if s in removed then 0 else Count(calls, s)
  {
    forall s
      ensures Count(Without(calls, removed), s) == if s in removed then 0 else Count(calls, s)
    {
      WithoutCount(calls, removed, s);
    }
  }

  /** A new incoming or dialing call from the idle state, with a fresh index, keeps the list consistent. */
  lemma AppendConsistent(calls: seq<CallInfo>, phone: PhoneState, c: CallInfo)
    requires CallsConsistent(calls, phone)
    requires phone.state == Idle && phone.numActive == 0
    requires c.state == Incoming || c.state == Dialing
    requires IsLeastFreeIndex(calls, c.index)
    ensures CallsConsistent(calls + [c], phone.(state := c.state))
  {
    AppendFresh(calls, c);
    var all := calls + [c];
    forall k | 0 <= k < |all|
      ensures all[k].index >= 1
    {
      if k < |calls| {
        assert all[k] == calls[k];
      }
    }
  }

  /** Answering turns the waiting call active and returns the phone to Idle with one active call. */
  lemma AnswerConsistent(calls: seq<CallInfo>, phone: PhoneState)
    requires CallsConsistent(calls, phone)
    requires phone.state != Idle
    ensures FirstWith(calls, {Incoming, Dialing}) < |calls|
    ensures CallsConsistent(ActivateFirst(calls, {Incoming, Dialing}), PhoneState(phone.numActive + 1, phone.numHeld, Idle))
  {
    var k := FirstWith(calls, {Incoming, Dialing});
    if k == |calls| {
      CountNone(calls, Incoming);
      CountNone(calls, Dialing);
    } else {
      CountPositive(calls, k);
      assert calls[k].state == phone.state;
      ActivateFirstCount(calls, {Incoming, Dialing}, Active);
      ActivateFirstCount(calls, {Incoming, Dialing}, Held);
      ActivateFirstCount(calls, {Incoming, Dialing}, Incoming);
      ActivateFirstCount(calls, {Incoming, Dialing}, Dialing);
      ActivateFirstCount(calls, {Incoming, Dialing}, Idle);
      ActivateFirstCount(calls, {Incoming, Dialing}, Alerting);
      ActivateFirstIndices(calls, {Incoming, Dialing});
    }
  }

  /** Hanging up from a consistent state leaves only the held calls, with the phone idle. */
  lemma HangupConsistent(calls: seq<CallInfo>, phone: PhoneState)
    requires CallsConsistent(calls, phone)
    requires (phone.state == Idle && phone.numActive > 0) || phone.state == Incoming || phone.state == Dialing
    ensures CallsConsistent(Without(calls, {Active, Incoming, Dialing}), PhoneState(0, phone.numHeld, Idle))
    ensures forall k | 0 <= k < |Without(calls, {Active, Incoming, Dialing})| ::
              Without(calls, {Active, Incoming, Dialing})[k].state == Held
  {
    var kept := Without(calls, {Active, Incoming, Dialing});
    WithoutCounts(calls, {Active, Incoming, Dialing});
    WithoutDistinct(calls, {Active, Incoming, Dialing});
    forall k | 0 <= k < |kept|
      ensures kept[k].state == Held && kept[k].index >= 1
    {
      WithoutMembers(calls, {Active, Incoming, Dialing});
      assert kept[k] in calls;
      CountPositive(kept, k);
    }
  }

  /** Releasing the held calls from the idle state keeps the list consistent. */
  lemma ReleaseHeldConsistent(calls: seq<CallInfo>, phone: PhoneState)
    requires CallsConsistent(calls, phone) && phone.state == Idle
    ensures CallsConsistent(Without(calls, {Held}), PhoneState(phone.numActive, 0, Idle))
  {
    var kept := Without(calls, {Held});
    WithoutCounts(calls, {Held});
    WithoutDistinct(calls, {Held});
    forall k | 0 <= k < |kept|
      ensures kept[k].index >= 1
    {
      WithoutMembers(calls, {Held});
      assert kept[k] in calls;
    }
  }

  /**
   * Releasing the active call and resuming the first held one leaves one
   * active call exactly when there was a held one.
   */
  lemma ReleaseActiveAcceptHeldConsistent(calls: seq<CallInfo>, phone: PhoneState)
    requires CallsConsistent(calls, phone) && phone.state == Idle
    ensures var kept := Without(calls, {Active});
            && (FirstWith(kept, {Held}) < |kept| <==> phone.numHeld > 0)
            && var a := if phone.numHeld > 0 then 1 else 0;
               CallsConsistent(ActivateFirst(kept, {Held}), PhoneState(a, phone.numHeld - a, Idle))
  {
    var kept := Without(calls, {Active});
    WithoutCount(calls, {Active}, Active);
    WithoutCount(calls, {Active}, Held);
    WithoutCount(calls, {Active}, Incoming);
    WithoutCount(calls, {Active}, Dialing);
    WithoutCount(calls, {Active}, Idle);
    WithoutCount(calls, {Active}, Alerting);
    WithoutDistinct(calls, {Active});
    forall i | 0 <= i < |kept|
      ensures kept[i].index >= 1
    {
      WithoutMembers(calls, {Active});
      assert kept[i] in calls;
    }
    var k := FirstWith(kept, {Held});
    if k == |kept| {
      CountNone(kept, Held);
    } else {
      CountPositive(kept, k);
      ActivateFirstCount(kept, {Held}, Active);
      ActivateFirstCount(kept, {Held}, Held);
      ActivateFirstCount(kept, {Held}, Incoming);
      ActivateFirstCount(kept, {Held}, Dialing);
      ActivateFirstCount(kept, {Held}, Idle);
      ActivateFirstCount(kept, {Held}, Alerting);
    }
    ActivateFirstIndices(kept, {Held});
  }

  /** The list with the CHLD=2 change applied to its first i calls only. */
  function HoldSwapPrefix(calls: seq<CallInfo>, i: nat): (partial: seq<CallInfo>)
    requires i <= |calls|
    ensures |partial| == |calls|
  {
    seq(|calls|, j requires 0 <= j < |calls| => if j < i then HoldSwapAt(calls, j) else calls[j])
  }

  /** Two lists that agree, position by position, on which calls are in a state have the same count of it. */
  lemma {:induction false} CountSameState(a: seq<CallInfo>, b: seq<CallInfo>, s: CallState)
    requires |a| == |b|
    requires forall j | 0 <= j < |a| :: (a[j].state == s) == (b[j].state == s)
    ensures Count(a, s) == Count(b, s)
  {
    if |a| != 0 {
      CountSameState(a[1..], b[1..], s);
    }
  }

  /** Swapping one more position of the prefix replaces one still-original call. */
  lemma HoldSwapPrefixStep(calls: seq<CallInfo>, i: nat)
    requires i < |calls|
    ensures HoldSwapPrefix(calls, i)[i] == calls[i]
    ensures HoldSwapPrefix(calls, i + 1) == HoldSwapPrefix(calls, i)[i := HoldSwapAt(calls, i)]
  {
  }

  lemma {:induction false} HoldSwapPrefixCounts(calls: seq<CallInfo>, i: nat)
    requires i <= |calls|
    ensures var p := HoldSwapPrefix(calls, i);
            var a := if FirstWith(calls, {Held}) < i then 1 else 0;
            && Count(p, Active) == a + Count(calls[i..], Active)
            && Count(p, Held) + Count(calls[i..], Active) + a == Count(calls, Held) + Count(calls, Active)
  {
    if i == 0 {
      assert HoldSwapPrefix(calls, 0) == calls;
      assert calls[0..] == calls;
    } else {
      var j := i - 1;
      var k := FirstWith(calls, {Held});
      HoldSwapPrefixCounts(calls, j);
      HoldSwapPrefixStep(calls, j);
      var before := HoldSwapPrefix(calls, j);
      var after := HoldSwapPrefix(calls, i);
      var c := HoldSwapAt(calls, j);
      CountFrom(calls, j, Active);
      CountUpdate(before, j, c, Active);
      CountUpdate(before, j, c, Held);
      if j == k {
        assert Count(after, Active) == Count(before, Active) + 1;
        assert Count(after, Held) + 1 == Count(before, Held);
      } else if calls[j].state == Active {
        assert Count(after, Active) + 1 == Count(before, Active);
        assert Count(after, Held) == Count(before, Held) + 1;
      } else {
        assert c == calls[j];
      }
    }
  }

  /** CHLD=2 changes only active and held calls. */
  lemma HoldSwapOtherCounts(calls: seq<CallInfo>, s: CallState)
    requires s != Active && s != Held
    ensures Count(HoldSwap(calls), s) == Count(calls, s)
  {
    CountSameState(HoldSwap(calls), calls, s);
  }

  /** CHLD=2 leaves every index where it was. */
  lemma HoldSwapIndices(calls: seq<CallInfo>)
    requires DistinctIndices(calls) && forall j | 0 <= j < |calls| :: calls[j].index >= 1
    ensures var after := HoldSwap(calls);
            DistinctIndices(after) && forall j | 0 <= j < |after| :: after[j].index >= 1
  {
    var after := HoldSwap(calls);
    forall j | 0 <= j < |calls|
      ensures after[j].index == calls[j].index
    {
      assert after[j] == HoldSwapAt(calls, j);
    }
  }

  /**
   * CHLD=2 from the idle state: the active and held counts keep their sum,
   * and one call is active afterwards exactly when one was held.
   */
  lemma HoldSwapConsistent(calls: seq<CallInfo>, phone: PhoneState)
    requires CallsConsistent(calls, phone) && phone.state == Idle
    ensures FirstWith(calls, {Held}) < |calls| <==> phone.numHeld > 0
    ensures var a := if phone.numHeld > 0 then 1 else 0;
            CallsConsistent(HoldSwap(calls), PhoneState(a, phone.numHeld + phone.numActive - a, Idle))
  {
    var n := |calls|;
    var k := FirstWith(calls, {Held});
    if k == n {
      CountNone(calls, Held);
    } else {
      CountPositive(calls, k);
    }
    var a := if phone.numHeld > 0 then 1 else 0;
    var after := HoldSwap(calls);
    assert Count(after, Active) == a && Count(after, Held) == phone.numHeld + phone.numActive - a by {
      HoldSwapPrefixCounts(calls, n);
      assert HoldSwapPrefix(calls, n) == after;
      assert calls[n..] == [];
    }
    HoldSwapOtherCounts(calls, Incoming);
    HoldSwapOtherCounts(calls, Dialing);
    HoldSwapOtherCounts(calls, Idle);
    HoldSwapOtherCounts(calls, Alerting);
    HoldSwapIndices(calls);
  }

  /**
   * The loop of `release_active_accept_held`: the first held call becomes
   * active and moves from the held count to the active count.
   */
  method ResumeFirstHeld(calls: seq<CallInfo>, phone: PhoneState) returns (resumed: seq<CallInfo>, after: PhoneState)
    requires FirstWith(calls, {Held}) < |calls| ==> phone.numHeld > 0
    ensures resumed == ActivateFirst(calls, {Held})
    ensures FirstWith(calls, {Held}) < |calls| ==>
              after == PhoneState(phone.numActive + 1, phone.numHeld - 1, phone.state)
    ensures FirstWith(calls, {Held}) == |calls| ==> after == phone
  {
    ghost var k := FirstWith(calls, {Held});
    resumed, after := calls, phone;
    var i := 0;
    while i < |resumed|
      invariant 0 <= i <= k
      invariant resumed == calls && after == phone
    {
      if resumed[i].state == Held {
        resumed := resumed[i := resumed[i].(state := Active)];
        after := after.(numHeld := after.numHeld - 1, numActive := after.numActive + 1);
        break;
      }
      i := i + 1;
    }
  }

  /**
   * The loop of `hold_active_accept_held`, entered with no active call: every
   * active call is held and the first held one becomes the active call.
   */
  method SwapActiveAndHeld(calls: seq<CallInfo>, phone: PhoneState) returns (swapped: seq<CallInfo>, after: PhoneState)
    requires phone.numActive == 0
    requires FirstWith(calls, {Held}) < |calls| ==> phone.numHeld > 0
    ensures swapped == HoldSwap(calls)
    ensures FirstWith(calls, {Held}) < |calls| ==>
              after == PhoneState(1, phone.numHeld - 1, phone.state)
    ensures FirstWith(calls, {Held}) == |calls| ==> after == phone
  {
    ghost var k := FirstWith(calls, {Held});
    swapped, after := calls, phone;
    var i := 0;
    while i < |swapped|
      invariant 0 <= i <= |calls| == |swapped|
      invariant swapped == HoldSwapPrefix(calls, i)
      invariant after == if k < i then PhoneState(1, phone.numHeld - 1, phone.state) else phone
    {
      if swapped[i].state == Held && after.numActive == 0 {
        swapped := swapped[i := swapped[i].(state := Active)];
        after := after.(numHeld := after.numHeld - 1, numActive := 1);
      } else if swapped[i].state == Active {
        swapped := swapped[i := swapped[i].(state := Held)];
      }
      i := i + 1;
      assert swapped == HoldSwapPrefix(calls, i);
    }
    assert swapped == HoldSwap(calls);
  }
}
