/**
 The experience hook. The original it calls may call the hook again, for riders and tribe members, to any
 depth; a global carries the amount of the call in progress to the calls nested in it.
 */
module Experience {
  import opened Base

  const PLAYER_LIMIT: real := 200000.0
  const DINO_LIMIT: real := 50000.0

  /** What the hook asks the character and its status component. */
  datatype Character = Character(
    isPlayer: bool,
    isDino: bool,
    team: int,
    level: int,
    levelBasedCap: real,
    isRider: bool)

  /** A call of the hook, and the calls that the original makes while it runs. */
  datatype Call = Call(who: Character, alphaKill: bool, howMuch: real, nested: seq<Call>)

  /** A call of the original: for whom, from what amount, with what amount. */
  datatype Award = Award(who: Character, asked: real, given: real)

  function Max(x: real, y: real): real {
    if x < y then y else x
  }

  function Min(x: real, y: real): real {
    if y < x then y else x
  }

  predicate Tamed(who: Character) {
    (who.isPlayer || who.isDino) && who.team >= FIRST_PLAYER_TEAM
  }

  function Scale(level: int): real {
    if level < 25 then 6.0 else if level < 50 then 4.0 else if level <= 100 then 2.0 else 1.0
  }

  function Multipliers(who: Character, alphaKill: bool): real {
    Max(1.0,
        (if alphaKill then 10.0 else 0.0) +
        (if who.level < 25 then 4.0 else if who.level < 50 then 3.0 else if who.level <= 100 then 2.0 else 0.0) +
        (if who.isPlayer && !who.isRider then 5.0 else 0.0))
  }

  function Floor(who: Character): real {
    if who.level < 30 then 5000.0 else 20000.0
  }

  function Limit(who: Character): real {
    if who.isPlayer then PLAYER_LIMIT else DINO_LIMIT
  }

  function Cap(who: Character, alphaKill: bool): real {
    Max(Floor(who), Min(Limit(who), who.levelBasedCap * Multipliers(who, alphaKill)))
  }

  /** The amount before the cap: scaled by level, and for a rider at least half of `parent`. */
  function Scaled(who: Character, howMuch: real, parent: real): real {
    var scaled := howMuch * Scale(who.level);
    if who.isPlayer && who.isRider && parent > 0.0 then Max(parent / 2.0, scaled) else scaled
  }

  /** What the call hands to the original, when the call it is nested in had the amount `parent`. */
  function Adjusted(call: Call, parent: real): real {
    if Tamed(call.who) then Min(Scaled(call.who, call.howMuch, parent), Cap(call.who, call.alphaKill))
    else call.howMuch
  }

  /** The awards of a whole call tree with no global at all: each call is told its parent's amount. */
  function Awards(call: Call, parent: real): seq<Award>
    decreases call, 1
  {
    [Award(call.who, call.howMuch, Adjusted(call, parent))] + AwardsOfAll(call.nested, call.howMuch)
  }

  function AwardsOfAll(calls: seq<Call>, parent: real): seq<Award>
    decreases calls, 0
  {
    if calls == [] then [] else Awards(calls[0], parent) + AwardsOfAll(calls[1..], parent)
  }

  lemma {:induction false} AwardsOfMore(calls: seq<Call>, call: Call, parent: real)
    ensures AwardsOfAll(calls + [call], parent) == AwardsOfAll(calls, parent) + Awards(call, parent)
  {
    if calls == [] {
      assert ([] + [call])[1..] == [];
    } else {
      assert (calls + [call])[1..] == calls[1..] + [call];
      AwardsOfMore(calls[1..], call, parent);
      assert AwardsOfAll(calls + [call], parent)
          == Awards(calls[0], parent) + (AwardsOfAll(calls[1..], parent) + Awards(call, parent));
    }
  }

  // ---------------------------------------------------------------- bounds

  /** What is promised of an award of a call made inside one of amount `parent`. */
  predicate Fair(award: Award, parent: real) {
    if Tamed(award.who) then
      && award.given <= Limit(award.who)
      && (award.asked >= 0.0 ==> award.given >= Min(award.asked, Floor(award.who)))
      && (award.who.isPlayer && award.who.isRider && parent > 0.0 ==>
            award.given >= Min(parent / 2.0, Floor(award.who)))
    else
      award.given == award.asked
  }

  lemma ScaleIsAtLeastOne(howMuch: real, level: int)
    requires howMuch >= 0.0
    ensures howMuch * Scale(level) >= howMuch
  {
  }

  lemma AdjustedIsFair(call: Call, parent: real)
    ensures Fair(Award(call.who, call.howMuch, Adjusted(call, parent)), parent)
  {
    if call.howMuch >= 0.0 {
      ScaleIsAtLeastOne(call.howMuch, call.who.level);
    }
  }

  /** The parent of every call in a tree, in the order of `Awards`. */
  function Parents(call: Call, parent: real): seq<real>
    decreases call, 1
  {
    [parent] + ParentsOfAll(call.nested, call.howMuch)
  }

  function ParentsOfAll(calls: seq<Call>, parent: real): seq<real>
    decreases calls, 0
  {
    if calls == [] then [] else Parents(calls[0], parent) + ParentsOfAll(calls[1..], parent)
  }

  predicate AllFair(awards: seq<Award>, parents: seq<real>) {
    |awards| == |parents| && forall i :: 0 <= i < |awards| ==> Fair(awards[i], parents[i])
  }

  /** Every award anywhere in a call tree is fair to the call it is nested in. */
  lemma {:induction false} TreeIsFair(call: Call, parent: real)
    ensures AllFair(Awards(call, parent), Parents(call, parent))
    decreases call, 1
  {
    AdjustedIsFair(call, parent);
    ForestIsFair(call.nested, call.howMuch);
  }

  lemma {:induction false} ForestIsFair(calls: seq<Call>, parent: real)
    ensures AllFair(AwardsOfAll(calls, parent), ParentsOfAll(calls, parent))
    decreases calls, 0
  {
    if calls != [] {
      TreeIsFair(calls[0], parent);
      ForestIsFair(calls[1..], parent);
    }
  }

  /** Asking for more never gives less. */
  lemma AdjustedIsMonotone(call: Call, more: real, parent: real)
    requires call.howMuch <= more
    ensures Adjusted(call, parent) <= Adjusted(call.(howMuch := more), parent)
  {
    assert call.howMuch * Scale(call.who.level) <= more * Scale(call.who.level);
  }

  // ---------------------------------------------------------------- exact amounts

  /** `wanted`, but no more than `room`, which counts as at least `floor` and otherwise as at most `limit`. */
  function Within(wanted: real, floor: real, limit: real, room: real): real {
    Min(wanted, Max(floor, Min(limit, room)))
  }

  /** So many times what was asked, and for a rider at least half of what the call around it was asked for. */
  function Times(factor: real, call: Call, parent: real): real {
    if call.who.isPlayer && call.who.isRider && parent > 0.0 then Max(parent / 2.0, call.howMuch * factor)
    else call.howMuch * factor
  }

  /** On what terms a tribe's character is given experience: how many times what was asked, and how many
      times the step to its next level there is room for, within a floor and a limit. */
  datatype Terms = Terms(times: real, room: real, floor: real, limit: real)

  /** A player on foot. */
  function TermsOnFoot(level: int, kill: bool): Terms {
    if level < 25 then Terms(6.0, if kill then 19.0 else 9.0, 5000.0, 200000.0)
    else if level < 30 then Terms(4.0, if kill then 18.0 else 8.0, 5000.0, 200000.0)
    else if level < 50 then Terms(4.0, if kill then 18.0 else 8.0, 20000.0, 200000.0)
    else if level <= 100 then Terms(2.0, if kill then 17.0 else 7.0, 20000.0, 200000.0)
    else Terms(1.0, if kill then 15.0 else 5.0, 20000.0, 200000.0)
  }

  /** A rider or a creature, but for the limit. */
  function TermsMounted(level: int, kill: bool, limit: real): Terms {
    if level < 25 then Terms(6.0, if kill then 14.0 else 4.0, 5000.0, limit)
    else if level < 30 then Terms(4.0, if kill then 13.0 else 3.0, 5000.0, limit)
    else if level < 50 then Terms(4.0, if kill then 13.0 else 3.0, 20000.0, limit)
    else if level <= 100 then Terms(2.0, if kill then 12.0 else 2.0, 20000.0, limit)
    else Terms(1.0, if kill then 10.0 else 1.0, 20000.0, limit)
  }

  function TermsFor(who: Character, kill: bool): Terms {
    if !who.isPlayer then TermsMounted(who.level, kill, 50000.0)
    else if who.isRider then TermsMounted(who.level, kill, 200000.0)
    else TermsOnFoot(who.level, kill)
  }

  function GiftOn(terms: Terms, call: Call, parent: real): real {
    Within(Times(terms.times, call, parent), terms.floor, terms.limit, call.who.levelBasedCap * terms.room)
  }

  /** The exact gift of every kind of call: as asked to strangers and the wild, and to a tribe's on its terms. */
  function Gift(call: Call, parent: real): real {
    if (call.who.isPlayer || call.who.isDino) && call.who.team >= 50000
    then GiftOn(TermsFor(call.who, call.alphaKill), call, parent)
    else call.howMuch
  }

  lemma TermsAreMet(who: Character, kill: bool)
    ensures TermsFor(who, kill) == Terms(Scale(who.level), Multipliers(who, kill), Floor(who), Limit(who))
  {
  }

  lemma ScaledIsTimes(call: Call, parent: real, factor: real)
    requires factor == Scale(call.who.level)
    ensures Scaled(call.who, call.howMuch, parent) == Times(factor, call, parent)
  {
  }

  lemma CapIsRoom(call: Call, wanted: real, terms: Terms)
    requires terms.room == Multipliers(call.who, call.alphaKill)
    requires terms.floor == Floor(call.who) && terms.limit == Limit(call.who)
    ensures Min(wanted, Cap(call.who, call.alphaKill))
         == Within(wanted, terms.floor, terms.limit, call.who.levelBasedCap * terms.room)
  {
  }

  lemma GiftIsCapped(call: Call, parent: real, terms: Terms, wanted: real, cap: real)
    requires wanted == Times(terms.times, call, parent)
    requires Min(wanted, cap) == Within(wanted, terms.floor, terms.limit, call.who.levelBasedCap * terms.room)
    ensures GiftOn(terms, call, parent) == Min(wanted, cap)
  {
  }

  /** What the hook hands on is that gift. */
  lemma AdjustedIsTheGift(call: Call, parent: real)
    ensures Adjusted(call, parent) == Gift(call, parent)
  {
    if Tamed(call.who) {
      var terms := TermsFor(call.who, call.alphaKill);
      var wanted, cap := Scaled(call.who, call.howMuch, parent), Cap(call.who, call.alphaKill);
      TermsAreMet(call.who, call.alphaKill);
      ScaledIsTimes(call, parent, terms.times);
      CapIsRoom(call, wanted, terms);
      GiftIsCapped(call, parent, terms, wanted, cap);
    }
  }

  /** All calls of a tree, in the order of `Awards`. */
  function Calls(call: Call): seq<Call>
    decreases call, 1
  {
    [call] + CallsOfAll(call.nested)
  }

  function CallsOfAll(calls: seq<Call>): seq<Call>
    decreases calls, 0
  {
    if calls == [] then [] else Calls(calls[0]) + CallsOfAll(calls[1..])
  }

  predicate AllGiven(awards: seq<Award>, calls: seq<Call>, parents: seq<real>) {
    && |awards| == |calls| == |parents|
    && forall i :: 0 <= i < |awards| ==>
         awards[i] == Award(calls[i].who, calls[i].howMuch, Gift(calls[i], parents[i]))
  }

  /** Every call of a tree is awarded, in order, its gift inside the call it is nested in. */
  lemma {:induction false} TreeIsGiven(call: Call, parent: real)
    ensures AllGiven(Awards(call, parent), Calls(call), Parents(call, parent))
    decreases call, 1
  {
    AdjustedIsTheGift(call, parent);
    ForestIsGiven(call.nested, call.howMuch);
  }

  lemma {:induction false} ForestIsGiven(calls: seq<Call>, parent: real)
    ensures AllGiven(AwardsOfAll(calls, parent), CallsOfAll(calls), ParentsOfAll(calls, parent))
    decreases calls, 0
  {
    if calls != [] {
      TreeIsGiven(calls[0], parent);
      ForestIsGiven(calls[1..], parent);
    }
  }

  // ---------------------------------------------------------------- the hook

  class Hook {
    var addExpAmount: real
    var given: seq<Award>

    /** The hook's own computation, from the amount and the global as they are at entry. */
    method Adjust(call: Call) returns (howMuch: real)
      ensures howMuch == Adjusted(call, addExpAmount) == Gift(call, addExpAmount)
    {
      howMuch := call.howMuch;
      if (call.who.isPlayer || call.who.isDino) && call.who.team >= FIRST_PLAYER_TEAM {
        howMuch := AdjustTamed(call);
      }
      AdjustedIsTheGift(call, addExpAmount);
    }

    method AdjustTamed(call: Call) returns (howMuch: real)
      requires Tamed(call.who)
      ensures howMuch == Adjusted(call, addExpAmount)
    {
      var who := call.who;
      howMuch := call.howMuch;
      var multipliers := 0.0;
      if call.alphaKill {
        multipliers := multipliers + 10.0;
      }
      if who.level < 25 {
        multipliers := multipliers + 4.0;
        howMuch := howMuch * 6.0;
      } else if who.level < 50 {
        multipliers := multipliers + 3.0;
        howMuch := howMuch * 4.0;
      } else if who.level <= 100 {
        multipliers := multipliers + 2.0;
        howMuch := howMuch * 2.0;
      }
      assert howMuch == call.howMuch * Scale(who.level);
      if who.isPlayer {
        if !who.isRider {
          multipliers := multipliers + 5.0;
        }
        if addExpAmount > 0.0 && who.isRider {
          howMuch := Max(addExpAmount / 2.0, howMuch);
        }
      }
      multipliers := Max(1.0, multipliers);
      howMuch := CapAmount(call, multipliers, howMuch);
    }

    method CapAmount(call: Call, multipliers: real, scaled: real) returns (howMuch: real)
      requires multipliers == Multipliers(call.who, call.alphaKill)
      ensures howMuch == Min(scaled, Cap(call.who, call.alphaKill))
    {
      var who := call.who;
      howMuch := scaled;
      var cap := Min(if who.isPlayer then PLAYER_LIMIT else DINO_LIMIT, who.levelBasedCap * multipliers);
      if who.level < 30 {
        cap := Max(5000.0, cap);
      } else {
        cap := Max(20000.0, cap);
      }
      if cap > 1.0 && howMuch > cap {
        howMuch := Min(howMuch, cap);
      }
    }

    /** Save the global, set it, call the original, restore it. The contract is that of passing the
        parent's amount down the tree. */
    method AddExperience(call: Call)
      modifies this
      ensures addExpAmount == old(addExpAmount)
      ensures given == old(given) + Awards(call, old(addExpAmount))
      decreases call
    {
      var origAddExpAmount := addExpAmount;
      var howMuch := Adjust(call);
      addExpAmount := call.howMuch;
      given := given + [Award(call.who, call.howMuch, howMuch)];
      Original(call.nested);
      addExpAmount := origAddExpAmount;
    }

    /** The original, of which only the hook calls it makes matter. */
    method Original(calls: seq<Call>)
      modifies this
      ensures addExpAmount == old(addExpAmount)
      ensures given == old(given) + AwardsOfAll(calls, old(addExpAmount))
      decreases calls
    {
      var i := 0;
      while i < |calls|
        invariant 0 <= i <= |calls|
        invariant addExpAmount == old(addExpAmount)
        invariant given == old(given) + AwardsOfAll(calls[..i], addExpAmount)
      {
        AwardsOfMore(calls[..i], calls[i], addExpAmount);
        assert calls[..i + 1] == calls[..i] + [calls[i]];
        AddExperience(calls[i]);
        i := i + 1;
      }
      assert calls[..i] == calls;
    }
  }
}
