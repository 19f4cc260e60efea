/** Tab colours: each session leases a palette slot, under one lock, in one file. */
module ColourLeases {
  import opened Wrappers
  import opened Text

  datatype Lease = Lease(slot: int, pid: int)

  type Leases = map<string, Lease>

  /** What one assignment reads besides the leases: its session, its settings, and the processes alive. */
  datatype Call = Call(
    name: string,
    pid: int,
    palette: seq<string>,
    preferred: Option<string>,
    avoidance: bool,
    live: set<int>,
    hash: nat)
  {
    predicate Valid() { palette != [] }

    function Fallback(): nat requires Valid() { hash % |palette| }
  }

  predicate AllLetters(s: string) { s != "" && forall i | 0 <= i < |s| :: IsLower(s[i]) || 'A' <= s[i] <= 'Z' }
  predicate AllDigits(s: string) { s != "" && forall i | 0 <= i < |s| :: IsDigit(s[i]) }

  /** A tail of ASCII letters, by their code points, and one of ASCII digits. */
  lemma LettersAndDigits(s: string)
    ensures AllLetters(s) <==> |s| > 0 && forall i | 0 <= i < |s| :: 97 <= s[i] as int < 123 || 65 <= s[i] as int < 91
    ensures AllDigits(s) <==> |s| > 0 && forall i | 0 <= i < |s| :: 48 <= s[i] as int < 58
  {
  }

  /** `name_number`: the name as a base-27 numeral with `a` as 1. */
  function NameNumber(name: string): int {
    if name == "" then 0 else NameNumber(name[..|name| - 1]) * 27 + (name[|name| - 1] as int - 96)
  }

  function Number(digits: string): int {
    if digits == "" then 0 else Number(digits[..|digits| - 1]) * 10 + (digits[|digits| - 1] as int - '0' as int)
  }

  lemma {:induction false} NumbersArePositive(name: string)
    requires LowerWord(name)
    ensures NameNumber(name) > 0
  {
    var front := name[..|name| - 1];
    assert IsLower(name[|name| - 1]);
    if front != "" {
      assert forall c | c in front :: c in name;
      NumbersArePositive(front);
    }
  }

  /** Distinct lower-case names have distinct numbers. */
  lemma {:induction false} NumbersTellNamesApart(a: string, b: string)
    requires LowerWord(a) && LowerWord(b) && NameNumber(a) == NameNumber(b)
    ensures a == b
    decreases |a|
  {
    var x, y := a[..|a| - 1], b[..|b| - 1];
    assert IsLower(a[|a| - 1]) && IsLower(b[|b| - 1]);
    assert NameNumber(x) == NameNumber(y) && a[|a| - 1] == b[|b| - 1];
    assert a == x + [a[|a| - 1]] && b == y + [b[|b| - 1]];
    assert (forall c | c in x :: c in a) && (forall c | c in y :: c in b);
    if x != "" {
      NumbersArePositive(x);
    }
    if y != "" {
      NumbersArePositive(y);
    }
    if x != "" && y != "" {
      NumbersTellNamesApart(x, y);
    }
  }

  /** The slot a human-named session's name maps to. */
  function HumanSlot(call: Call): Option<nat>
    requires call.Valid()
  {
    var tail := LastSegment(call.name);
    if AllLetters(tail) then Some((NameNumber(tail) - 1) % |call.palette|) else None
  }

  /** The slot a session takes when it does not avoid collisions: its index, else its name's number, else the first. */
  function OwnSlot(call: Call): nat
    requires call.Valid()
  {
    var tail := LastSegment(call.name);
    var number := if '-' in call.name && AllDigits(tail) then Number(tail)
                  else if AllLetters(tail) then NameNumber(tail)
                  else 1;
    (number - 1) % |call.palette|
  }

  function Pruned(leases: Leases, live: set<int>): Leases {
    leases - set name | name in leases && leases[name].pid !in live
  }

  function Occupied(leases: Leases): set<int> {
    set name | name in leases :: leases[name].slot
  }

  /** The least palette slot not occupied, from `i` on. */
  function FirstFree(occupied: set<int>, i: nat, n: nat): (r: Option<nat>)
    requires i <= n
    ensures r.Some? ==> i <= r.value < n && r.value !in occupied && forall j | i <= j < r.value :: j in occupied
    ensures r.None? ==> forall j | i <= j < n :: j in occupied
    decreases n - i
  {
    if i == n then None else if i !in occupied then Some(i) else FirstFree(occupied, i + 1, n)
  }

  /** The slot a call takes when these slots are occupied. */
  function Slot(call: Call, occupied: set<int>): (slot: nat)
    requires call.Valid()
    ensures slot < |call.palette|
    ensures call.avoidance ==> (slot !in occupied <==> exists i | 0 <= i < |call.palette| :: i !in occupied)
  {
    var human := HumanSlot(call);
    var wanted := if call.preferred.Some? then IndexOf(call.palette, call.preferred.value, 0) else None;
    if human.Some? && (call.preferred.None? || call.preferred.value == "") && human.value !in occupied then human.value
    else if !call.avoidance then OwnSlot(call)
    else if call.preferred.Some? && call.preferred.value != "" && wanted.Some? && wanted.value !in occupied then
      wanted.value
    else
      var free := FirstFree(occupied, 0, |call.palette|);
      if free.Some? then free.value else call.Fallback()
  }

  /** The leases after an assignment, and the slot it took. */
  function Assigned(leases: Leases, call: Call): (Leases, nat)
    requires call.Valid()
  {
    var active := Pruned(leases, call.live);
    var slot := Slot(call, Occupied(active));
    (active[call.name := Lease(slot, call.pid)], slot)
  }

  /** A name's number is its letters read in base 27 with `a` as 1, and a suffix's its digits in base 10. */
  lemma NumbersAre(front: string, last: char)
    ensures NameNumber("") == 0 && NameNumber(front + [last]) == 27 * NameNumber(front) + (last as int - 'a' as int + 1)
    ensures Number("") == 0 && Number(front + [last]) == 10 * Number(front) + (last as int - '0' as int)
  {
    assert (front + [last])[..|front|] == front;
  }

  /**
   * Without avoidance a session takes its own slot, whatever is leased: its index if it has one, else its name's
   * number, else the first, counted from one and wrapped to the palette. A free slot of a human name comes first.
   */
  lemma SlotIsOwn(call: Call, occupied: set<int>)
    requires call.Valid() && !call.avoidance
    ensures
      var tail, n := LastSegment(call.name), |call.palette|;
      var slot := Slot(call, occupied);
      && (AllLetters(tail) ==> slot == (NameNumber(tail) - 1) % n)
      && (AllDigits(tail) && '-' in call.name ==> slot == (Number(tail) - 1) % n)
      && (!AllLetters(tail) && !(AllDigits(tail) && '-' in call.name) ==> slot == 0)
  {
  }

  /**
   * A human-named session with no pinned colour takes its name's slot while that is free, and a session that avoids
   * collisions otherwise takes its pinned colour's slot while that is free, and else the first free one.
   */
  lemma SlotPrefers(call: Call, occupied: set<int>)
    requires call.Valid()
    ensures
      var tail, n, slot := LastSegment(call.name), |call.palette|, Slot(call, occupied);
      var pinned := call.preferred.Some? && call.preferred.value != "";
      var own := AllLetters(tail) && !pinned && (NameNumber(tail) - 1) % n !in occupied;
      && (own ==> slot == (NameNumber(tail) - 1) % n)
      && (call.avoidance && !own && pinned && slot !in occupied ==>
            || (call.palette[slot] == call.preferred.value && call.preferred.value !in call.palette[..slot])
            || (forall i | 0 <= i < slot :: i in occupied))
      && (call.avoidance && !own && !pinned && slot !in occupied ==> forall i | 0 <= i < slot :: i in occupied)
  {
  }

  /** With avoidance and every slot taken, a session takes the slot its hash wraps to. */
  lemma FullPaletteFallsBack(call: Call, occupied: set<int>)
    requires call.Valid() && call.avoidance && forall i | 0 <= i < |call.palette| :: i in occupied
    ensures Slot(call, occupied) == call.hash % |call.palette|
  {
  }

  /** The lease file, as its lock's holder reads and rewrites it. */
  class LeaseFile {
    var leases: Leases

    /** `_assign_iterm2_color_slot`, for an enabled palette; the colour is the palette's at the slot. */
    method Assign(call: Call) returns (colour: Option<string>, slot: nat)
      modifies this
      ensures !call.Valid() ==> colour.None? && leases == old(leases)
      ensures call.Valid() ==>
                && (leases, slot) == Assigned(old(leases), call)
                && slot < |call.palette| && colour == Some(call.palette[slot])
      ensures call.Valid() ==>
                forall name :: Get(leases, name)
                  == if name == call.name then Some(Lease(slot, call.pid))
                     else if name in old(leases) && old(leases)[name].pid in call.live then Some(old(leases)[name])
                     else None
    {
      colour, slot := None, 0;
      if call.palette == [] {
        return;
      }
      var active: Leases := map[];
      var todo := leases.Keys;
      while todo != {}
        invariant todo <= leases.Keys
        invariant forall name :: name in active <==>
            name in leases && name !in todo && leases[name].pid in call.live
        invariant forall name | name in active :: active[name] == leases[name]
        decreases todo
      {
        var name :| name in todo;
        todo := todo - {name};
        if leases[name].pid in call.live {
          active := active[name := leases[name]];
        }
      }
      assert active == Pruned(leases, call.live);
      var occupied := set name | name in active :: active[name].slot;
      slot := Slot(call, occupied);
      leases := active[call.name := Lease(slot, call.pid)];
      colour := Some(call.palette[slot]);
    }

    /** `_release_iterm2_color_slot`. */
    method Release(name: string)
      modifies this
      ensures leases == old(leases) - {name}
    {
      leases := leases - {name};
    }
  }

  /** No two leases share a slot. */
  ghost predicate Distinct(leases: Leases) {
    forall a, b | a in leases && b in leases && a != b :: leases[a].slot != leases[b].slot
  }

  lemma {:induction false} FewerThan(occupied: set<int>, n: nat)
    requires forall i | 0 <= i < n :: i in occupied
    ensures n <= |occupied|
  {
    if n > 0 {
      FewerThan(occupied - {n - 1}, n - 1);
    }
  }

  lemma {:induction false} OccupiedIsSmall(leases: Leases)
    ensures |Occupied(leases)| <= |leases|
    decreases |leases|
  {
    if leases != map[] {
      var name :| name in leases;
      var rest := leases - {name};
      OccupiedIsSmall(rest);
      assert leases.Keys == rest.Keys + {name};
      assert |leases.Keys| == |rest.Keys| + 1;
      assert Occupied(leases) == Occupied(rest) + {leases[name].slot};
    }
  }

  /** With fewer live leases than palette entries, a slot is free. */
  lemma SomeSlotIsFree(leases: Leases, n: nat)
    requires |leases| < n
    ensures exists i | 0 <= i < n :: i !in Occupied(leases)
  {
    OccupiedIsSmall(leases);
    if forall i | 0 <= i < n :: i in Occupied(leases) {
      FewerThan(Occupied(leases), n);
    }
  }

  /** An assignment keeps the leases distinct exactly when its slot is one no other live lease holds. */
  lemma AssignKeepsDistinct(leases: Leases, call: Call)
    requires call.Valid() && Distinct(leases)
    ensures
      var (after, slot) := Assigned(leases, call);
      Distinct(after) <==> slot !in Occupied(Pruned(leases, call.live) - {call.name})
  {
    var active := Pruned(leases, call.live);
    var (after, slot) := Assigned(leases, call);
    if slot in Occupied(active - {call.name}) {
      var other :| other in active - {call.name} && (active - {call.name})[other].slot == slot;
      assert after[other].slot == after[call.name].slot;
    }
    forall a, b | a in after && b in after && a != b && slot !in Occupied(active - {call.name})
      ensures after[a].slot != after[b].slot
    {
      assert forall c | c in after && c != call.name :: c in active - {call.name};
    }
  }

  datatype Event = Assignment(call: Call) | Removal(name: string)

  ghost predicate Next(before: Leases, event: Event, after: Leases) {
    match event
    case Assignment(call) => call.Valid() && after == Assigned(before, call).0
    case Removal(name) => after == before - {name}
  }

  ghost predicate IsRun(states: seq<Leases>, events: seq<Event>) {
    && |states| == |events| + 1
    && forall i | 0 <= i < |events| :: Next(states[i], events[i], states[i + 1])
  }

  /** Avoiding collisions, with fewer live leases than palette entries. */
  predicate HasRoom(leases: Leases, call: Call) {
    call.avoidance && |Pruned(leases, call.live)| < |call.palette|
  }

  /** An assignment with room takes a palette slot no live lease holds. */
  lemma RoomGivesFreshSlot(leases: Leases, call: Call)
    requires HasRoom(leases, call)
    ensures
      var (after, slot) := Assigned(leases, call);
      slot < |call.palette| && slot !in Occupied(Pruned(leases, call.live))
  {
    SomeSlotIsFree(Pruned(leases, call.live), |call.palette|);
  }

  /**
   * Through any assignments with room, releases, owners' deaths and assignments under a name again, the leases stay
   * pairwise distinct.
   */
  lemma {:induction false} LeasesStayDistinct(states: seq<Leases>, events: seq<Event>, n: nat)
    requires IsRun(states, events) && Distinct(states[0]) && n < |states|
    requires forall i | 0 <= i < n && events[i].Assignment? :: HasRoom(states[i], events[i].call)
    ensures Distinct(states[n])
  {
    hide Assigned, HasRoom, Distinct;
    if n > 0 {
      LeasesStayDistinct(states, events, n - 1);
      assert Next(states[n - 1], events[n - 1], states[n]);
      match events[n - 1] {
        case Assignment(call) =>
          RoomGivesFreshSlot(states[n - 1], call);
          var active := Pruned(states[n - 1], call.live);
          assert Occupied(active - {call.name}) <= Occupied(active);
          AssignKeepsDistinct(states[n - 1], call);
        case Removal(name) => RemovalKeepsDistinct(states[n - 1], name);
      }
    }
  }

  lemma RemovalKeepsDistinct(leases: Leases, name: string)
    requires Distinct(leases)
    ensures Distinct(leases - {name})
  {
  }

  /** A human-named session with no pinned colour gets the same colour each time it starts and finds its slot free. */
  lemma RestartKeepsColour(before: Leases, first: Call, after: Leases, again: Call)
    requires first.Valid() && again.name == first.name && again.palette == first.palette
    requires AllLetters(LastSegment(first.name)) && first.preferred.None? && again.preferred.None?
    requires HumanSlot(first).value !in Occupied(Pruned(before, first.live))
    requires HumanSlot(again).value !in Occupied(Pruned(after, again.live))
    ensures Assigned(before, first).1 == Assigned(after, again).1
  {
  }

  /** With avoidance, a pinned colour is given whenever its slot is free, and otherwise the first free slot is. */
  lemma PinnedColour(leases: Leases, call: Call)
    requires call.Valid() && call.avoidance && call.preferred.Some? && call.preferred.value in call.palette
    requires call.preferred.value != ""
    requires forall i, j | 0 <= i < j < |call.palette| :: call.palette[i] != call.palette[j]
    ensures
      var occupied, slot := Occupied(Pruned(leases, call.live)), Assigned(leases, call).1;
      if exists i | 0 <= i < |call.palette| :: call.palette[i] == call.preferred.value && i !in occupied then
        call.palette[slot] == call.preferred.value
      else (exists i | 0 <= i < |call.palette| :: i !in occupied) ==> forall i | 0 <= i < slot :: i in occupied
  {
  }
}
