/** Which offending validators are disabled for the rest of an era, and that
    they always stay below the byzantine share of the active set. */
module Disabling {
  import opened Accounts
  import opened Arithmetic

  /** The active validator set, the active era, and the limit factor. */
  datatype Session = Session(validators: seq<AccountId>, activeEra: nat, factor: nat)

  function DisableLimit(count: nat, factor: nat): nat {
    if factor == 0 then 0 else SatSub(count, 1) / factor
  }

  function PositionOf(validators: seq<AccountId>, stash: AccountId): (r: Option<nat>)
    ensures r.None? <==> stash !in validators
    ensures r.Some? ==> r.value < |validators| && validators[r.value] == stash
  {
    if |validators| == 0 then None
    else if validators[0] == stash then Some(0)
    else match PositionOf(validators[1..], stash)
      case Some(k) => Some(k + 1)
      case None => None
  }

  function Decision(session: Session, stash: AccountId, slashEra: nat, disabled: seq<nat>): Option<nat> {
    if |disabled| >= DisableLimit(|session.validators|, session.factor) then None
    else if session.activeEra > slashEra then None
    else PositionOf(session.validators, stash)
  }

  ghost predicate Sorted(s: seq<nat>) { forall i, j :: 0 <= i < j < |s| ==> s[i] < s[j] }

  /** Where a binary search places `x`: after the elements below it. */
  function InsertionPoint(s: seq<nat>, x: nat): (p: nat)
    ensures p <= |s|
    ensures forall i :: 0 <= i < p ==> s[i] < x
    ensures p < |s| ==> s[p] >= x
  {
    if |s| == 0 || s[0] >= x then 0
    else
      var p := InsertionPoint(s[1..], x);
      assert forall i :: 0 < i < |s| ==> s[i] == s[1..][i - 1];
      p + 1
  }

  /** The list with `x` in its place; nothing changes when `x` is there already. */
  function Inserted(s: seq<nat>, x: nat): seq<nat> {
    var p := InsertionPoint(s, x);
    if p < |s| && s[p] == x then s else s[..p] + [x] + s[p..]
  }

  /** The disabled list after an offence. */
  function AfterOffence(session: Session, stash: AccountId, slashEra: nat, disabled: seq<nat>): seq<nat> {
    match Decision(session, stash, slashEra, disabled)
    case None => disabled
    case Some(offender) => Inserted(disabled, offender)
  }

  class DisabledValidators {
    var disabled: seq<nat>

    constructor ()
      ensures disabled == []
    {
      disabled := [];
    }

    method AddOffendingValidator(session: Session, stash: AccountId, slashEra: nat)
      modifies this
      ensures disabled == AfterOffence(session, stash, slashEra, old(disabled))
    {
      var decision := Decision(session, stash, slashEra, disabled);
      if decision.Some? {
        var index := InsertionPoint(disabled, decision.value);
        if !(index < |disabled| && disabled[index] == decision.value) {
          disabled := disabled[..index] + [decision.value] + disabled[index..];
        }
      }
    }
  }

  // ---------- laws ----------

  lemma InsertedSorted(s: seq<nat>, x: nat)
    requires Sorted(s)
    ensures Sorted(Inserted(s, x))
  {
    var p, r := InsertionPoint(s, x), Inserted(s, x);
    if |r| > |s| {
      forall i | 0 <= i < |r| ensures r[i] == if i < p then s[i] else if i == p then x else s[i - 1] {}
      forall i, j | 0 <= i < j < |r| ensures r[i] < r[j] {
        assert p < i ==> s[p] <= s[i - 1];
        assert p < j ==> s[p] <= s[j - 1];
      }
    }
  }

  /** Inserting adds that one element, if anything. */
  lemma InsertedHolds(s: seq<nat>, x: nat)
    ensures forall y :: y in Inserted(s, x) <==> y in s || y == x
    ensures |Inserted(s, x)| <= |s| + 1
  {
    var p := InsertionPoint(s, x);
    if p < |s| && s[p] == x {
    } else {
      assert s == s[..p] + s[p..];
    }
  }

  ghost predicate Holds(session: Session, disabled: seq<nat>) {
    && Sorted(disabled)
    && (forall k :: 0 <= k < |disabled| ==> disabled[k] < |session.validators|)
    && |disabled| <= DisableLimit(|session.validators|, session.factor)
  }

  datatype Offence = Offence(stash: AccountId, slashEra: nat)

  /** The validators who must be disabled if there is room. */
  ghost predicate Eligible(session: Session, o: Offence) {
    o.slashEra >= session.activeEra && o.stash in session.validators
  }

  ghost function Offender(session: Session, o: Offence): nat
    requires Eligible(session, o)
  {
    PositionOf(session.validators, o.stash).value
  }

  lemma OffenceKeeps(session: Session, o: Offence, disabled: seq<nat>)
    requires Holds(session, disabled)
    ensures var after := AfterOffence(session, o.stash, o.slashEra, disabled);
      && Holds(session, after)
      && (forall x :: x in disabled ==> x in after)
      && (forall x :: x in after ==> x in disabled || (Eligible(session, o) && x == Offender(session, o)))
      && (Eligible(session, o) && Offender(session, o) !in after ==>
            |after| == DisableLimit(|session.validators|, session.factor))
  {
    hide Sorted, Inserted, DisableLimit;
    var decision := Decision(session, o.stash, o.slashEra, disabled);
    if decision.Some? {
      InsertedSorted(disabled, decision.value);
      InsertedHolds(disabled, decision.value);
      assert forall k :: 0 <= k < |Inserted(disabled, decision.value)| ==>
        Inserted(disabled, decision.value)[k] in Inserted(disabled, decision.value);
    }
  }

  ghost function AfterOffences(session: Session, offences: seq<Offence>, disabled: seq<nat>): seq<nat>
    decreases |offences|
  {
    if |offences| == 0 then disabled
    else AfterOffences(session, offences[1..], AfterOffence(session, offences[0].stash, offences[0].slashEra, disabled))
  }

  /** Over any offences of an era the list stays sorted and valid, only grows, holds
      only reported offenders, and omits one only when the limit is reached. */
  lemma {:induction false} OffencesKeep(session: Session, offences: seq<Offence>, disabled: seq<nat>)
    requires Holds(session, disabled)
    ensures var after := AfterOffences(session, offences, disabled);
      && Holds(session, after)
      && (forall x :: x in disabled ==> x in after)
      && (forall x :: x in after && x !in disabled ==>
            exists k :: 0 <= k < |offences| && Eligible(session, offences[k]) && Offender(session, offences[k]) == x)
      && (forall k :: 0 <= k < |offences| && Eligible(session, offences[k]) ==>
            Offender(session, offences[k]) in after
            || |after| == DisableLimit(|session.validators|, session.factor))
    decreases |offences|
  {
    if |offences| > 0 {
      var next := AfterOffence(session, offences[0].stash, offences[0].slashEra, disabled);
      OffenceKeeps(session, offences[0], disabled);
      OffencesKeep(session, offences[1..], next);
      var after := AfterOffences(session, offences, disabled);
      assert forall k :: 0 < k < |offences| ==> offences[k] == offences[1..][k - 1];
      SortedSubset(next, after);
      forall x | x in after && x !in disabled
        ensures exists k :: 0 <= k < |offences| && Eligible(session, offences[k]) && Offender(session, offences[k]) == x
      {
        if x in next {
          assert Eligible(session, offences[0]) && Offender(session, offences[0]) == x;
        } else {
          var k :| 0 <= k < |offences[1..]| && Eligible(session, offences[1..][k])
            && Offender(session, offences[1..][k]) == x;
          assert offences[1..][k] == offences[k + 1];
        }
      }
    }
  }

  lemma {:induction false} SortedSubset(a: seq<nat>, b: seq<nat>)
    requires Sorted(a) && Sorted(b) && forall x :: x in a ==> x in b
    ensures |a| <= |b|
  {
    if |a| > 0 {
      var last := a[|a| - 1];
      assert last in b;
      var p :| 0 <= p < |b| && b[p] == last;
      forall x | x in a[..|a| - 1] ensures x in b[..p] {
        var i :| 0 <= i < |a| - 1 && a[i] == x;
        assert a[i] in b;
        var j :| 0 <= j < |b| && b[j] == x;
        assert x < last;
        assert b[j] == b[..p][j];
      }
      SortedSubset(a[..|a| - 1], b[..p]);
    }
  }

  /** Fewer than one in `factor` validators of a non-empty active set are ever disabled in an era. */
  lemma ByzantineCap(session: Session, offences: seq<Offence>)
    requires |session.validators| >= 1 && session.factor > 0
    ensures session.factor * |AfterOffences(session, offences, [])| < |session.validators|
  {
    OffencesKeep(session, offences, []);
    var d := |AfterOffences(session, offences, [])|;
    LimitTimesFactor(|session.validators|, session.factor, d);
  }

  lemma LimitTimesFactor(count: nat, factor: nat, d: nat)
    requires count >= 1 && factor > 0 && d <= DisableLimit(count, factor)
    ensures factor * d < count
  {
    var limit := (count - 1) / factor;
    assert limit * factor <= count - 1;
    assert (limit - d) * factor >= 0;
    assert factor * d == limit * factor - (limit - d) * factor;
  }
}
