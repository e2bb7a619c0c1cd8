/**
 * Binding the entries of a replay's PlayerResource to the ten player slots
 * (packages/parser/internal/parse/parser.go, identity.go).
 */
module PlayerBinding {
  import opened Wrappers

  /** What PlayerResource says of one entry. */
  datatype Seat = Seat(team: int, teamSlot: int, steam: nat, name: string)

  datatype Candidate = Candidate(index: nat, seat: Seat)

  datatype Player = Player(candidate: Candidate, slot: nat, valveSlot: int, accountId: nat)

  const SEATS: nat := 24
  const RADIANT: int := 2
  const DIRE: int := 3
  const UNASSIGNED: int := 14
  const STEAM_ID64_BASE: nat := 76561197960265728

  /** Conversion to uint32 keeps the low 32 bits. */
  function AccountFromSteam(steam: nat): (account: nat)
    ensures account < 0x1_0000_0000
    ensures steam < 0x1_0000_0000 ==> account == steam
    ensures 0x1_0000_0000 <= steam < STEAM_ID64_BASE ==> account == 0
    ensures steam >= STEAM_ID64_BASE ==> (steam - STEAM_ID64_BASE - account) % 0x1_0000_0000 == 0
  {
    if steam == 0 then 0
    else if steam >= STEAM_ID64_BASE then (steam - STEAM_ID64_BASE) % 0x1_0000_0000
    else if steam > 0xFFFF_FFFF then 0
    else steam
  }

  /** Both spellings of an account give the account. */
  lemma AccountRoundTrip(account: nat)
    ensures account < 0x1_0000_0000 <==>
              AccountFromSteam(STEAM_ID64_BASE + account) == account && AccountFromSteam(account) == account
  {
  }

  datatype Slot = Slot(slot: nat, valve: int)

  function ReplaySlot(team: int, teamSlot: int): (s: Option<Slot>)
    ensures s.Some? <==> 0 <= teamSlot <= 4 && (team == RADIANT || team == DIRE)
    ensures s.Some? ==> s.value.slot % 5 == teamSlot && (s.value.slot < 5 <==> team == RADIANT) && s.value.slot < 10
    ensures s.Some? ==> s.value.valve == (if s.value.slot < 5 then s.value.slot else 123 + s.value.slot)
  {
    if teamSlot < 0 || teamSlot > 4 then None
    else if team == RADIANT then Some(Slot(teamSlot, teamSlot))
    else if team == DIRE then Some(Slot(5 + teamSlot, 128 + teamSlot))
    else None
  }

  // ---- who is bound ---------------------------------------------------------------------------

  function Candidates(seats: seq<Seat>): seq<Candidate> {
    if seats == [] then []
    else
      var n := |seats| - 1;
      var before := Candidates(seats[..n]);
      if seats[n].team == RADIANT || seats[n].team == DIRE then before + [Candidate(n, seats[n])] else before
  }

  function OfTeam(found: seq<Candidate>, team: int): seq<Candidate> {
    if found == [] then []
    else
      var n := |found| - 1;
      var before := OfTeam(found[..n], team);
      if found[n].seat.team == team then before + [found[n]] else before
  }

  /** The first five of each team, radiant first; none while a seat is unassigned or a team is short. */
  function TheTen(seats: seq<Seat>): Option<seq<Candidate>> {
    var radiant, dire := OfTeam(Candidates(seats), RADIANT), OfTeam(Candidates(seats), DIRE);
    if exists i :: 0 <= i < |seats| && seats[i].team == UNASSIGNED then None
    else if |radiant| < 5 || |dire| < 5 then None
    else Some(radiant[..5] + dire[..5])
  }

  /** Sorted by index, without repeats. */
  predicate Ascending(cs: seq<Candidate>, bound: nat) {
    && (forall i | 0 <= i < |cs| :: cs[i].index < bound)
    && forall i, j | 0 <= i < j < |cs| :: cs[i].index < cs[j].index
  }

  lemma {:induction false} CandidatesAscend(seats: seq<Seat>)
    ensures Ascending(Candidates(seats), |seats|)
    ensures forall c | c in Candidates(seats) :: c.index < |seats| && c.seat == seats[c.index]
  {
    if seats != [] {
      CandidatesAscend(seats[..|seats| - 1]);
    }
  }

  lemma {:induction false} TeamAscends(found: seq<Candidate>, team: int, bound: nat)
    requires Ascending(found, bound)
    ensures Ascending(OfTeam(found, team), bound)
    ensures forall i | 0 <= i < |OfTeam(found, team)| ::
              OfTeam(found, team)[i] in found && OfTeam(found, team)[i].seat.team == team
  {
    if found != [] {
      TeamAscends(found[..|found| - 1], team, found[|found| - 1].index);
    }
  }

  /** Five of each team, no index twice. */
  ghost predicate IsTen(ten: seq<Candidate>) {
    && |ten| == 10
    && (forall i | 0 <= i < 10 :: ten[i].seat.team == (if i < 5 then RADIANT else DIRE))
    && forall i, j | 0 <= i < j < 10 :: ten[i].index != ten[j].index
  }

  lemma TheTenAreTen(seats: seq<Seat>)
    requires TheTen(seats).Some?
    ensures IsTen(TheTen(seats).value)
    ensures forall i | 0 <= i < 10 ::
              TheTen(seats).value[i].index < |seats|
              && TheTen(seats).value[i].seat == seats[TheTen(seats).value[i].index]
  {
    var found, ten := Candidates(seats), TheTen(seats).value;
    var radiant, dire := OfTeam(found, RADIANT), OfTeam(found, DIRE);
    CandidatesAscend(seats);
    TeamAscends(found, RADIANT, |seats|);
    TeamAscends(found, DIRE, |seats|);
    forall i | 0 <= i < 10
      ensures ten[i] in found && ten[i].seat.team == (if i < 5 then RADIANT else DIRE)
    {
      assert ten[i] == if i < 5 then radiant[i] else dire[i - 5];
    }
    forall i, j | 0 <= i < j < 10 ensures ten[i].index != ten[j].index {
      if j < 5 {
        assert radiant[i].index < radiant[j].index;
      } else if i >= 5 {
        assert dire[i - 5].index < dire[j - 5].index;
      } else {
        assert seats[ten[i].index].team != seats[ten[j].index].team;
      }
    }
  }

  function Side(i: nat): int { if i < 5 then RADIANT else DIRE }

  /** From `from` on, `ten` holds the first five seats of a team, in order. */
  ghost predicate FirstFive(seats: seq<Seat>, team: int, ten: seq<nat>, from: nat) {
    && from + 5 <= |ten|
    && (forall i | from <= i < from + 5 :: ten[i] < |seats| && seats[ten[i]].team == team)
    && (forall i, j | from <= i < j < from + 5 :: ten[i] < ten[j])
    && forall k | 0 <= k < ten[from + 4] && seats[k].team == team :: k in ten
  }

  /** The first five radiant seats, and then the first five dire ones. */
  ghost predicate FirstTen(seats: seq<Seat>, ten: seq<nat>) {
    |ten| == 10 && FirstFive(seats, RADIANT, ten, 0) && FirstFive(seats, DIRE, ten, 5)
  }

  /** All seats of a team, each once, in order. */
  ghost predicate AllOf(seats: seq<Seat>, team: int, cs: seq<Candidate>) {
    && Ascending(cs, |seats|)
    && (forall c | c in cs :: c.index < |seats| && c.seat == seats[c.index] && c.seat.team == team)
    && forall i | 0 <= i < |seats| && seats[i].team == team :: Candidate(i, seats[i]) in cs
  }

  lemma {:induction false} CandidateIsThere(seats: seq<Seat>, i: nat)
    requires i < |seats| && (seats[i].team == RADIANT || seats[i].team == DIRE)
    ensures Candidate(i, seats[i]) in Candidates(seats)
  {
    var n := |seats| - 1;
    if i < n {
      assert seats[..n][i] == seats[i];
      CandidateIsThere(seats[..n], i);
    }
  }

  lemma {:induction false} TeamKeeps(found: seq<Candidate>, c: Candidate)
    requires c in found
    ensures c in OfTeam(found, c.seat.team)
  {
    var n := |found| - 1;
    if found[n] != c {
      assert c in found[..n];
      TeamKeeps(found[..n], c);
    }
  }

  lemma TeamIsAllOf(seats: seq<Seat>, team: int)
    requires team == RADIANT || team == DIRE
    ensures AllOf(seats, team, OfTeam(Candidates(seats), team))
  {
    var found := Candidates(seats);
    CandidatesAscend(seats);
    TeamAscends(found, team, |seats|);
    forall i | 0 <= i < |seats| && seats[i].team == team ensures Candidate(i, seats[i]) in OfTeam(found, team) {
      CandidateIsThere(seats, i);
      TeamKeeps(found, Candidate(i, seats[i]));
    }
  }

  lemma StandsAt(seats: seq<Seat>, team: int, cs: seq<Candidate>, i: nat) returns (k: nat)
    requires AllOf(seats, team, cs) && i < |seats| && seats[i].team == team
    ensures k < |cs| && cs[k].index == i
  {
    k :| 0 <= k < |cs| && cs[k] == Candidate(i, seats[i]);
  }

  lemma InOrder(cs: seq<Candidate>, bound: nat, a: nat, b: nat)
    requires Ascending(cs, bound) && a < |cs| && b < |cs| && cs[a].index < cs[b].index
    ensures a < b
  {
  }

  function IndicesOf(cs: seq<Candidate>): seq<nat> { seq(|cs|, i requires 0 <= i < |cs| => cs[i].index) }

  /** The first five candidates of a team are its first five seats. */
  lemma FiveOfAll(seats: seq<Seat>, team: int, cs: seq<Candidate>, ten: seq<nat>, from: nat)
    requires AllOf(seats, team, cs) && |cs| >= 5 && from + 5 <= |ten|
    requires forall i | 0 <= i < 5 :: ten[from + i] == cs[i].index
    ensures FirstFive(seats, team, ten, from)
  {
    forall i | from <= i < from + 5 ensures ten[i] < |seats| && seats[ten[i]].team == team {
      assert ten[from + (i - from)] == cs[i - from].index && cs[i - from] in cs;
    }
    forall i, j | from <= i < j < from + 5 ensures ten[i] < ten[j] {
      assert ten[from + (i - from)] == cs[i - from].index && ten[from + (j - from)] == cs[j - from].index;
    }
    forall k | 0 <= k < ten[from + 4] && seats[k].team == team ensures k in ten {
      var j := StandsAt(seats, team, cs, k);
      InOrder(cs, |seats|, j, 4);
      assert ten[from + j] == k;
    }
  }

  /** Five seats in order stand at five candidates in order. */
  lemma FiveNeedFive(seats: seq<Seat>, team: int, cs: seq<Candidate>, ten: seq<nat>, from: nat)
    requires AllOf(seats, team, cs) && FirstFive(seats, team, ten, from)
    ensures |cs| >= 5
  {
    var k0 := StandsAt(seats, team, cs, ten[from]);
    var k1 := StandsAt(seats, team, cs, ten[from + 1]);
    var k2 := StandsAt(seats, team, cs, ten[from + 2]);
    var k3 := StandsAt(seats, team, cs, ten[from + 3]);
    var k4 := StandsAt(seats, team, cs, ten[from + 4]);
    InOrder(cs, |seats|, k0, k1);
    InOrder(cs, |seats|, k1, k2);
    InOrder(cs, |seats|, k2, k3);
    InOrder(cs, |seats|, k3, k4);
  }

  /** The ten are the first five seats of each side, once both sides have five and all are seated. */
  lemma TheTenAreFirst(seats: seq<Seat>)
    ensures TheTen(seats).Some? <==>
              (forall i | 0 <= i < |seats| :: seats[i].team != UNASSIGNED) && exists ten :: FirstTen(seats, ten)
    ensures TheTen(seats).Some? ==> FirstTen(seats, IndicesOf(TheTen(seats).value))
  {
    var radiant, dire := OfTeam(Candidates(seats), RADIANT), OfTeam(Candidates(seats), DIRE);
    TeamIsAllOf(seats, RADIANT);
    TeamIsAllOf(seats, DIRE);
    if |radiant| >= 5 && |dire| >= 5 {
      var ten := radiant[..5] + dire[..5];
      FiveOfAll(seats, RADIANT, radiant, IndicesOf(ten), 0);
      FiveOfAll(seats, DIRE, dire, IndicesOf(ten), 5);
      assert FirstTen(seats, IndicesOf(ten));
    }
    if exists ten :: FirstTen(seats, ten) {
      var ten :| FirstTen(seats, ten);
      FiveNeedFive(seats, RADIANT, radiant, ten, 0);
      FiveNeedFive(seats, DIRE, dire, ten, 5);
    }
  }

  // ---- slots ----------------------------------------------------------------------------------

  function OwnSlot(c: Candidate): Option<Slot> { ReplaySlot(c.seat.team, c.seat.teamSlot) }

  /** Every candidate's own slot is there and no two are the same. */
  predicate OwnSlotsUnique(ten: seq<Candidate>) {
    && (forall i | 0 <= i < |ten| :: OwnSlot(ten[i]).Some?)
    && forall i, j | 0 <= i < j < |ten| :: OwnSlot(ten[i]).value.slot != OwnSlot(ten[j]).value.slot
  }

  function SlotAt(ten: seq<Candidate>, unique: bool, i: nat): Slot
    requires i < |ten|
  {
    if unique && OwnSlot(ten[i]).Some? then OwnSlot(ten[i]).value
    else Slot(i, if i < 5 then i else 128 + (i - 5))
  }

  function BoundPlayer(ten: seq<Candidate>, unique: bool, i: nat): Player
    requires i < |ten|
  {
    Player(ten[i], SlotAt(ten, unique, i).slot, SlotAt(ten, unique, i).valve, AccountFromSteam(ten[i].seat.steam))
  }

  function Bound(ten: seq<Candidate>): seq<Player> {
    seq(|ten|, i requires 0 <= i < |ten| => BoundPlayer(ten, OwnSlotsUnique(ten), i))
  }

  lemma {:induction false} SubsetSize(a: set<nat>, b: set<nat>)
    requires a <= b
    ensures |a| <= |b|
  {
    if a != {} {
      var x :| x in a;
      SubsetSize(a - {x}, b - {x});
    }
  }

  function Elements(s: seq<nat>): set<nat> { set x | x in s }

  lemma {:induction false} DistinctSize(s: seq<nat>)
    requires forall i, j | 0 <= i < j < |s| :: s[i] != s[j]
    ensures |Elements(s)| == |s|
  {
    if s != [] {
      var before, last := s[..|s| - 1], s[|s| - 1];
      DistinctSize(before);
      assert Elements(s) == Elements(before) + {last};
    }
  }

  function Range(offset: nat, n: nat): (r: set<nat>)
    ensures forall x :: x in r <==> offset <= x < offset + n
  {
    if n == 0 then {} else Range(offset, n - 1) + {offset + n - 1}
  }

  lemma {:induction false} RangeSize(offset: nat, n: nat)
    ensures |Range(offset, n)| == n
  {
    if n > 0 {
      RangeSize(offset, n - 1);
    }
  }

  /** `n` different numbers from a range of `n` are all of it. */
  lemma Pigeonhole(s: seq<nat>, offset: nat)
    requires forall i | 0 <= i < |s| :: offset <= s[i] < offset + |s|
    requires forall i, j | 0 <= i < j < |s| :: s[i] != s[j]
    ensures forall x | offset <= x < offset + |s| :: x in s
  {
    DistinctSize(s);
    RangeSize(offset, |s|);
    forall x | offset <= x < offset + |s| ensures x in s {
      if x !in s {
        SubsetSize(Elements(s), Range(offset, |s|) - {x});
      }
    }
  }

  // ---- the bijection --------------------------------------------------------------------------

  function SlotsOf(players: seq<Player>): seq<nat> {
    seq(|players|, i requires 0 <= i < |players| => players[i].slot)
  }

  /** Ten players on ten slots, radiant on the first five, each with the slot Valve numbers it by. */
  ghost predicate TenSlots(players: seq<Player>) {
    && |players| == 10
    && (forall i, j | 0 <= i < j < 10 :: players[i].slot != players[j].slot)
    && (forall i | 0 <= i < 10 :: players[i].slot < 10)
    && (forall i | 0 <= i < 10 ::
          players[i].candidate.seat.team == (if players[i].slot < 5 then RADIANT else DIRE))
    && (forall i | 0 <= i < 10 ::
          players[i].valveSlot == (if players[i].slot < 5 then players[i].slot else 123 + players[i].slot))
  }

  lemma SlotOnSide(ten: seq<Candidate>, i: nat)
    requires IsTen(ten) && i < 10
    ensures var p := Bound(ten)[i];
            && p.slot < 10 && (p.slot < 5 <==> i < 5)
            && p.valveSlot == (if p.slot < 5 then p.slot else 123 + p.slot)
  {
  }

  lemma BoundSlotsDiffer(ten: seq<Candidate>, i: nat, j: nat)
    requires IsTen(ten) && i < j < 10
    ensures Bound(ten)[i].slot != Bound(ten)[j].slot
  {
  }

  /** Whether the replay's own team slots are usable or not, the ten are put one on each slot of their side. */
  lemma BindingIsBijection(seats: seq<Seat>)
    requires TheTen(seats).Some?
    ensures var players := Bound(TheTen(seats).value);
            && TenSlots(players)
            && (forall slot | 0 <= slot < 10 :: slot in SlotsOf(players))
            && (forall i, j | 0 <= i < j < 10 :: players[i].candidate.index != players[j].candidate.index)
            && forall i | 0 <= i < 10 ::
                 players[i].candidate.index < |seats|
                 && players[i].candidate.seat == seats[players[i].candidate.index]
  {
    var ten := TheTen(seats).value;
    TheTenAreTen(seats);
    forall i | 0 <= i < 10
      ensures var p := Bound(ten)[i];
              && p.slot < 10 && (p.slot < 5 <==> i < 5)
              && p.valveSlot == (if p.slot < 5 then p.slot else 123 + p.slot)
    {
      SlotOnSide(ten, i);
    }
    forall i, j | 0 <= i < j < 10 ensures Bound(ten)[i].slot != Bound(ten)[j].slot {
      BoundSlotsDiffer(ten, i, j);
    }
    Pigeonhole(SlotsOf(Bound(ten)), 0);
  }

  /** The replay's own slots are kept exactly when they are all there and all different. */
  lemma OwnSlotsAreKept(ten: seq<Candidate>)
    requires IsTen(ten)
    ensures (forall i | 0 <= i < 10 :: OwnSlot(ten[i]).Some? && Bound(ten)[i].slot == OwnSlot(ten[i]).value.slot)
            <==> OwnSlotsUnique(ten)
                 || forall i | 0 <= i < 10 :: OwnSlot(ten[i]).Some? && OwnSlot(ten[i]).value.slot == i
  {
  }

  /** Every one of the ten has a team slot, and no two of a side the same. */
  ghost predicate OwnTeamSlots(seats: seq<Seat>, ten: seq<nat>)
    requires FirstTen(seats, ten)
  {
    && (forall i | 0 <= i < 10 :: 0 <= seats[ten[i]].teamSlot <= 4)
    && forall i, j | 0 <= i < j < 10 && (i < 5 <==> j < 5) :: seats[ten[i]].teamSlot != seats[ten[j]].teamSlot
  }

  /**
   * Who sits on a slot: with usable team slots on both sides the seat of that side and team slot,
   * else the five of each side in the order of their seats.
   */
  ghost predicate SitsOn(seats: seq<Seat>, ten: seq<nat>, p: Player)
    requires FirstTen(seats, ten)
  {
    && p.slot < 10 && p.candidate.index in ten && p.candidate.seat == seats[p.candidate.index]
    && p.candidate.seat.team == Side(p.slot) && p.accountId == AccountFromSteam(p.candidate.seat.steam)
    && p.valveSlot == (if p.slot < 5 then p.slot else 123 + p.slot)
    && (if OwnTeamSlots(seats, ten) then p.candidate.seat.teamSlot == p.slot % 5
        else p.candidate.index == ten[p.slot])
  }

  lemma OwnSlotIs(c: Candidate, i: nat)
    requires c.seat.team == Side(i)
    ensures OwnSlot(c).Some? <==> 0 <= c.seat.teamSlot <= 4
    ensures OwnSlot(c).Some? ==> OwnSlot(c).value.slot == c.seat.teamSlot + (if i < 5 then 0 else 5)
  {
  }

  lemma UniqueIsOwnTeamSlots(seats: seq<Seat>, ten: seq<Candidate>)
    requires IsTen(ten) && FirstTen(seats, IndicesOf(ten))
    requires forall i | 0 <= i < 10 :: ten[i].index < |seats| && ten[i].seat == seats[ten[i].index]
    ensures OwnSlotsUnique(ten) <==> OwnTeamSlots(seats, IndicesOf(ten))
  {
    forall i | 0 <= i < 10
      ensures IndicesOf(ten)[i] == ten[i].index
      ensures OwnSlot(ten[i]).Some? <==> 0 <= seats[IndicesOf(ten)[i]].teamSlot <= 4
      ensures OwnSlot(ten[i]).Some? ==>
                OwnSlot(ten[i]).value.slot == seats[IndicesOf(ten)[i]].teamSlot + (if i < 5 then 0 else 5)
    {
      OwnSlotIs(ten[i], i);
    }
  }

  lemma BoundSits(seats: seq<Seat>, i: nat)
    requires TheTen(seats).Some? && i < 10
    ensures IsTen(TheTen(seats).value) && FirstTen(seats, IndicesOf(TheTen(seats).value))
    ensures SitsOn(seats, IndicesOf(TheTen(seats).value), Bound(TheTen(seats).value)[i])
  {
    TheTenAreFirst(seats);
    TheTenAreTen(seats);
    var ten := TheTen(seats).value;
    UniqueIsOwnTeamSlots(seats, ten);
    SlotOnSide(ten, i);
    OneSits(seats, ten, i);
  }

  lemma OneSits(seats: seq<Seat>, ten: seq<Candidate>, i: nat)
    requires IsTen(ten) && i < 10 && FirstTen(seats, IndicesOf(ten))
    requires ten[i].index < |seats| && ten[i].seat == seats[ten[i].index]
    requires OwnSlotsUnique(ten) <==> OwnTeamSlots(seats, IndicesOf(ten))
    ensures SitsOn(seats, IndicesOf(ten), Bound(ten)[i])
  {
    OwnSlotIs(ten[i], i);
    assert IndicesOf(ten)[i] == ten[i].index;
    if !OwnSlotsUnique(ten) {
      assert Bound(ten)[i].slot == i;
    }
  }

  // ---- the session ----------------------------------------------------------------------------

  function IdToSlot(players: seq<Player>, before: map<nat, nat>): map<nat, nat> {
    if players == [] then before
    else
      var last := players[|players| - 1];
      IdToSlot(players[..|players| - 1], before)[last.candidate.index := last.slot]
  }

  /** Of several players with one name, the last one bound is found by it; an empty name finds nobody. */
  function NameToSlot(players: seq<Player>, before: map<string, nat>): map<string, nat> {
    if players == [] then before
    else
      var last := players[|players| - 1];
      var earlier := NameToSlot(players[..|players| - 1], before);
      if last.candidate.seat.name == "" then earlier else earlier[last.candidate.seat.name := last.slot]
  }

  lemma {:induction false} IdToSlotFinds(players: seq<Player>, before: map<nat, nat>)
    requires forall i, j | 0 <= i < j < |players| :: players[i].candidate.index != players[j].candidate.index
    ensures forall i | 0 <= i < |players| ::
              Lookup(IdToSlot(players, before), players[i].candidate.index) == Some(players[i].slot)
    ensures forall id | forall i | 0 <= i < |players| :: players[i].candidate.index != id ::
              Lookup(IdToSlot(players, before), id) == Lookup(before, id)
  {
    if players != [] {
      IdToSlotFinds(players[..|players| - 1], before);
    }
  }

  /** The player on this slot is on its side and is found by its index. */
  predicate ReadySlot(p: Option<Player>, idToSlot: map<nat, nat>, slot: nat) {
    && p.Some? && p.value.slot == slot
    && p.value.candidate.seat.team == (if slot < 5 then RADIANT else DIRE)
    && Lookup(idToSlot, p.value.candidate.index) == Some(slot)
  }

  lemma WrittenSlotIsReady(out: seq<Player>, players: seq<Option<Player>>, before: map<nat, nat>, slot: nat)
    requires slot < 10 <= |players| && TenSlots(out) && slot in SlotsOf(out)
    requires forall i | 0 <= i < 10 :: players[out[i].slot] == Some(out[i])
    requires forall i, j | 0 <= i < j < 10 :: out[i].candidate.index != out[j].candidate.index
    ensures ReadySlot(players[slot], IdToSlot(out, before), slot)
  {
    IdToSlotFinds(out, before);
    var i :| 0 <= i < 10 && SlotsOf(out)[i] == slot;
    assert out[i].slot == slot;
  }

  lemma WrittenSlotSits(seats: seq<Seat>, players: seq<Option<Player>>, slot: nat)
    requires slot < 10 <= |players| && TheTen(seats).Some?
    requires var out := Bound(TheTen(seats).value);
             && TenSlots(out) && slot in SlotsOf(out)
             && forall i | 0 <= i < 10 :: players[out[i].slot] == Some(out[i])
    ensures FirstTen(seats, IndicesOf(TheTen(seats).value))
    ensures players[slot].Some? && SitsOn(seats, IndicesOf(TheTen(seats).value), players[slot].value)
  {
    var out := Bound(TheTen(seats).value);
    var i :| 0 <= i < 10 && SlotsOf(out)[i] == slot;
    assert out[i].slot == slot;
    BoundSits(seats, i);
  }

  lemma {:induction false} UnknownNameStays(players: seq<Player>, before: map<string, nat>, name: string)
    requires name == "" || forall i | 0 <= i < |players| :: players[i].candidate.seat.name != name
    ensures Lookup(NameToSlot(players, before), name) == Lookup(before, name)
  {
    if players != [] {
      UnknownNameStays(players[..|players| - 1], before, name);
    }
  }

  /** A name finds the last player bound by it. */
  lemma {:induction false} NameFindsLast(players: seq<Player>, before: map<string, nat>, i: nat)
    requires i < |players| && players[i].candidate.seat.name != ""
    requires forall j | i < j < |players| :: players[j].candidate.seat.name != players[i].candidate.seat.name
    ensures Lookup(NameToSlot(players, before), players[i].candidate.seat.name) == Some(players[i].slot)
  {
    var n := |players| - 1;
    if i < n {
      assert players[n].candidate.seat.name != players[i].candidate.seat.name;
      NameFindsLast(players[..n], before, i);
    }
  }

  class Session {
    var players: array<Option<Player>>
    var accounts: array<nat>
    var idToSlot: map<nat, nat>
    var nameToSlot: map<string, nat>
    var playerCount: nat
    var playersReady: bool

    /** Once ready, the first ten entries are players on their own slots, found by their index. */
    ghost predicate Valid()
      reads this, players, accounts
    {
      && players.Length == SEATS && accounts.Length == 10
      && (playersReady ==>
            && playerCount == 10
            && forall slot | 0 <= slot < 10 :: ReadySlot(players[slot], idToSlot, slot))
    }

    constructor ()
      ensures Valid() && !playersReady && fresh(players) && fresh(accounts)
      ensures idToSlot == map[] && nameToSlot == map[]
    {
      players := new Option<Player>[SEATS](_ => None);
      accounts := new nat[10](_ => 0);
      idToSlot, nameToSlot, playerCount, playersReady := map[], map[], 0, false;
    }

    /** Whether the ten candidates' own slots are all there and all different. */
    static method CheckSlots(ten: seq<Candidate>) returns (unique: bool)
      ensures unique == OwnSlotsUnique(ten)
    {
      var seen: seq<bool> := seq(10, _ => false);
      unique := true;
      for i := 0 to |ten|
        invariant |seen| == 10
        invariant forall j | 0 <= j < i :: OwnSlot(ten[j]).Some?
        invariant forall j, k | 0 <= j < k < i :: OwnSlot(ten[j]).value.slot != OwnSlot(ten[k]).value.slot
        invariant forall slot | 0 <= slot < 10 ::
                    seen[slot] <==> exists j :: 0 <= j < i && OwnSlot(ten[j]).value.slot == slot
      {
        var own := ReplaySlot(ten[i].seat.team, ten[i].seat.teamSlot);
        if own.None? || seen[own.value.slot] { return false; }
        seen := seen[own.value.slot := true];
      }
    }

    /** The ten, or none; `seats` is PlayerResource. */
    static method FindTen(seats: seq<Seat>) returns (ten: Option<seq<Candidate>>)
      ensures ten == TheTen(seats)
    {
      var found: seq<Candidate> := [];
      for i := 0 to |seats|
        invariant found == Candidates(seats[..i])
        invariant forall j | 0 <= j < i :: seats[j].team != UNASSIGNED
      {
        assert seats[..i + 1][..i] == seats[..i];
        if seats[i].team == UNASSIGNED { return None; }
        if seats[i].team != RADIANT && seats[i].team != DIRE { continue; }
        found := found + [Candidate(i, seats[i])];
      }
      assert seats[..|seats|] == seats;
      var radiant: seq<Candidate>, dire: seq<Candidate> := [], [];
      AllOnASide(seats);
      for i := 0 to |found|
        invariant radiant == OfTeam(found[..i], RADIANT) && dire == OfTeam(found[..i], DIRE)
      {
        assert found[..i + 1][..i] == found[..i] && found[i] in found;
        if found[i].seat.team == RADIANT {
          radiant := radiant + [found[i]];
        } else {
          dire := dire + [found[i]];
        }
      }
      assert found[..|found|] == found;
      if |radiant| < 5 || |dire| < 5 { return None; }
      return Some(radiant[..5] + dire[..5]);
    }

    /** The players of the ten, in order. */
    static method BindTen(ten: seq<Candidate>, unique: bool) returns (out: seq<Player>)
      requires |ten| == 10 && unique == OwnSlotsUnique(ten)
      ensures out == Bound(ten)
    {
      out := [];
      for i := 0 to 10
        invariant |out| == i && forall j | 0 <= j < i :: out[j] == Bound(ten)[j]
      {
        out := out + [BoundPlayer(ten, unique, i)];
      }
    }

    /** tryBindPlayers: all ten are bound, or nothing changes. */
    method TryBindPlayers(seats: seq<Seat>) returns (ghost seated: seq<nat>)
      requires Valid() && !playersReady
      modifies this, players, accounts
      ensures Valid() && players == old(players) && accounts == old(accounts)
      ensures playersReady <==>
                (forall i | 0 <= i < |seats| :: seats[i].team != UNASSIGNED) && exists ten :: FirstTen(seats, ten)
      ensures playersReady ==>
                && FirstTen(seats, seated)
                && forall slot | 0 <= slot < 10 ::
                     && players[slot].Some? && players[slot].value.slot == slot
                     && SitsOn(seats, seated, players[slot].value)
      ensures playersReady <==> TheTen(seats).Some?
      ensures !playersReady ==>
                players[..] == old(players[..]) && accounts[..] == old(accounts[..])
                && idToSlot == old(idToSlot) && nameToSlot == old(nameToSlot)
      ensures playersReady ==>
                var bound := Bound(TheTen(seats).value);
                && (forall i | 0 <= i < 10 :: players[bound[i].slot] == Some(bound[i]))
                && (forall slot | 10 <= slot < SEATS :: players[slot] == old(players[slot]))
                && idToSlot == IdToSlot(bound, old(idToSlot))
                && nameToSlot == NameToSlot(bound, old(nameToSlot))
                && forall i | 0 <= i < 10 ::
                     accounts[bound[i].slot] ==
                     if bound[i].accountId != 0 then bound[i].accountId else old(accounts[bound[i].slot])
    {
      var ten := FindTen(seats);
      seated := [];
      TheTenAreFirst(seats);
      if ten.None? { return; }
      seated := IndicesOf(ten.value);
      BindAll(seats, ten.value);
      BindingIsBijection(seats);
      forall slot | 0 <= slot < 10 ensures players[slot].Some? && SitsOn(seats, seated, players[slot].value) {
        WrittenSlotSits(seats, players[..], slot);
      }
    }

    /** The slots of the ten are chosen, and all of them are written. */
    method BindAll(ghost seats: seq<Seat>, ten: seq<Candidate>)
      requires Valid() && !playersReady && TheTen(seats) == Some(ten)
      modifies this, players, accounts
      ensures Valid() && players == old(players) && accounts == old(accounts) && playersReady && TenSlots(Bound(ten))
      ensures forall i | 0 <= i < 10 :: players[Bound(ten)[i].slot] == Some(Bound(ten)[i])
      ensures forall slot | 10 <= slot < SEATS :: players[slot] == old(players[slot])
      ensures idToSlot == IdToSlot(Bound(ten), old(idToSlot)) && nameToSlot == NameToSlot(Bound(ten), old(nameToSlot))
      ensures forall i | 0 <= i < 10 ::
                accounts[Bound(ten)[i].slot] ==
                if Bound(ten)[i].accountId != 0 then Bound(ten)[i].accountId else old(accounts[Bound(ten)[i].slot])
    {
      TheTenAreTen(seats);
      BindingIsBijection(seats);
      var unique := CheckSlots(ten);
      var out := BindTen(ten, unique);
      WriteAll(out);
      playerCount := 10;
      playersReady := true;
      forall slot | 0 <= slot < 10 ensures ReadySlot(players[slot], idToSlot, slot) {
        WrittenSlotIsReady(out, players[..], old(idToSlot), slot);
      }
    }

    method WriteAll(out: seq<Player>)
      requires players.Length == SEATS && accounts.Length == 10 && TenSlots(out)
      modifies this`idToSlot, this`nameToSlot, players, accounts
      ensures forall i | 0 <= i < 10 :: players[out[i].slot] == Some(out[i])
      ensures forall slot | 10 <= slot < SEATS :: players[slot] == old(players[slot])
      ensures idToSlot == IdToSlot(out, old(idToSlot)) && nameToSlot == NameToSlot(out, old(nameToSlot))
      ensures forall i | 0 <= i < 10 ::
                accounts[out[i].slot] ==
                if out[i].accountId != 0 then out[i].accountId else old(accounts[out[i].slot])
    {
      for i := 0 to 10
        invariant forall j | 0 <= j < i :: players[out[j].slot] == Some(out[j])
        invariant forall slot | 10 <= slot < SEATS :: players[slot] == old(players[slot])
        invariant idToSlot == IdToSlot(out[..i], old(idToSlot))
        invariant nameToSlot == NameToSlot(out[..i], old(nameToSlot))
        invariant forall j | 0 <= j < 10 ::
                    accounts[out[j].slot] ==
                    if j < i && out[j].accountId != 0 then out[j].accountId else old(accounts[out[j].slot])
      {
        assert out[..i + 1][..i] == out[..i];
        WriteOne(out[i]);
      }
      assert out[..10] == out;
    }

    method WriteOne(p: Player)
      requires players.Length == SEATS && accounts.Length == 10 && p.slot < 10
      modifies this`idToSlot, this`nameToSlot, players, accounts
      ensures players[p.slot] == Some(p) && forall k | 0 <= k < SEATS && k != p.slot :: players[k] == old(players[k])
      ensures idToSlot == old(idToSlot)[p.candidate.index := p.slot]
      ensures nameToSlot == if p.candidate.seat.name == "" then old(nameToSlot)
                            else old(nameToSlot)[p.candidate.seat.name := p.slot]
      ensures accounts[p.slot] == if p.accountId != 0 then p.accountId else old(accounts[p.slot])
      ensures forall k | 0 <= k < 10 && k != p.slot :: accounts[k] == old(accounts[k])
    {
      players[p.slot] := Some(p);
      idToSlot := idToSlot[p.candidate.index := p.slot];
      if p.candidate.seat.name != "" {
        nameToSlot := nameToSlot[p.candidate.seat.name := p.slot];
      }
      if p.accountId != 0 {
        accounts[p.slot] := p.accountId;
      }
    }

    /** slotForPlayerID; -1 when nobody is found. */
    method SlotForPlayerID(id: int) returns (slot: int)
      requires Valid()
      ensures slot == if id >= 0 && id in idToSlot then idToSlot[id]
                      else if 0 <= id <= 9 && playersReady then id else -1
      ensures playersReady ==>
                forall s | 0 <= s < 10 && players[s].value.candidate.index == id :: slot == s
    {
      if id < 0 { return -1; }
      if id in idToSlot { return idToSlot[id]; }
      if id <= 9 && playersReady {
        if players[id].Some? { return players[id].value.slot; }
      }
      return -1;
    }
  }

  lemma {:induction false} AllOnASide(seats: seq<Seat>)
    ensures forall c | c in Candidates(seats) :: c.seat.team == RADIANT || c.seat.team == DIRE
  {
    if seats != [] {
      AllOnASide(seats[..|seats| - 1]);
    }
  }
}
