/** The registry key map: key object to name. A key opened below an unnamed one waits for that one's
    name, and a key that closes while others wait for its name stays as a tombstone. */
module KeyMap {
  import opened Collections
  import opened Options
  import opened Registry
  import opened Time

  datatype Name =
    | Full(path: string)
    /** `rel` below `base`, still without a name. */
    | Below(base: Key, rel: string)
    /** `rel` below an object that is gone. */
    | Orphan(rel: string)

  datatype Entry = Entry(name: Name, since: i64, closed: Option<i64>, touched: nat)

  datatype Resolved = Whole(path: string) | Partial(known: string, root: Key)

  const MAX_DEPTH: nat := 64

  /** One backslash comes between the two, unless the base ends with it; nothing is added to name the base. */
  function Join(base: string, rel: string): (r: string)
    ensures rel == "" ==> r == base
    ensures rel != "" ==>
              && base <= r && |r| >= |rel| && r[|r| - |rel|..] == rel
              && |base| + |rel| <= |r| <= |base| + 1 + |rel|
              && |r| > |rel| && r[|r| - |rel| - 1] == '\\'
              && (|r| == |base| + |rel| <==> base != "" && base[|base| - 1] == '\\')
  {
    if rel == "" then base
    else if base != "" && base[|base| - 1] == '\\' then base + rel
    else base + "\\" + rel
  }

  // The state, with what the proof follows: when each entry was set, and a naming of all objects that
  // the entries agree with.

  datatype State = State(entries: map<Key, Entry>, waiting: map<Key, set<Key>>, born: map<Key, nat>,
                         told: map<Key, string>)

  function Waiters(waiting: map<Key, set<Key>>, base: Key): set<Key> {
    if base in waiting then waiting[base] else {}
  }

  predicate WaitsOn(entries: map<Key, Entry>, key: Key, base: Key) {
    key in entries && entries[key].name.Below? && entries[key].name.base == base
  }

  /** A child is in its base's waiting set exactly when its entry is below that base; `loose` children
      have been taken out of it. */
  ghost predicate Indexed(entries: map<Key, Entry>, waiting: map<Key, set<Key>>, loose: set<Key>) {
    && (forall b | b in waiting :: waiting[b] != {})
    && (forall b, c | b in waiting && c in waiting[b] :: WaitsOn(entries, c, b) && c !in loose)
    && (forall c | c in entries && c !in loose && entries[c].name.Below? :: c in Waiters(waiting, entries[c].name.base))
  }

  /** Nothing waits for a name that is known; the children of `naming` are about to be named. */
  ghost predicate NothingWaitsOnNamed(entries: map<Key, Entry>, waiting: map<Key, set<Key>>, naming: set<Key>) {
    forall b | b in entries && entries[b].name.Full? && b !in naming :: b !in waiting
  }

  /** A tombstone has children waiting; those of `dying` may be about to go. */
  ghost predicate TombstonesNeeded(entries: map<Key, Entry>, waiting: map<Key, set<Key>>, dying: set<Key>) {
    forall b | b in entries && entries[b].closed.Some? && b !in dying :: b in waiting
  }

  /** A base was set before what waits for it: no cycles. */
  ghost predicate Ranked(entries: map<Key, Entry>, born: map<Key, nat>) {
    && entries.Keys <= born.Keys && (forall c | c in entries && entries[c].name.Below? :: born[c] > 0)
    && forall c, b | WaitsOn(entries, c, b) && b in entries :: born[b] < born[c]
  }

  ghost predicate TrueName(key: Key, name: Name, truth: map<Key, string>) {
    match name
    case Full(path) => key in truth && truth[key] == path
    case Below(base, rel) => key in truth && base in truth && truth[key] == Join(truth[base], rel)
    case Orphan(_) => true
  }

  /** The entries agree with a naming of all objects: full names are those it gives, and names below
      a base fit it. */
  ghost predicate Truthful(entries: map<Key, Entry>, truth: map<Key, string>) {
    forall k | k in entries :: TrueName(k, entries[k].name, truth)
  }

  ghost predicate Sound(s: State, loose: set<Key>, dying: set<Key>, naming: set<Key>) {
    && Indexed(s.entries, s.waiting, loose) && NothingWaitsOnNamed(s.entries, s.waiting, naming)
    && TombstonesNeeded(s.entries, s.waiting, dying) && Ranked(s.entries, s.born) && Truthful(s.entries, s.told)
  }

  /** A handle's entry stays; a known name is kept, an unknown one may become known or lose its base. */
  ghost predicate Carried(was: map<Key, Entry>, now: map<Key, Entry>) {
    && (forall k | k in now ::
          && k in was && now[k].closed == was[k].closed
          && now[k].touched == was[k].touched && now[k].since == was[k].since)
    && (forall k | k in now :: now[k].name == was[k].name || (was[k].name.Below? && !now[k].name.Below?))
    && (forall k | k in was && was[k].closed == None :: k in now)
  }

  lemma CarriedOn(a: map<Key, Entry>, b: map<Key, Entry>, c: map<Key, Entry>)
    requires Carried(a, b) && Carried(b, c)
    ensures Carried(a, c)
  {
    assert forall k | k in c :: k in b && k in a;
  }

  lemma CarriedSelf(a: map<Key, Entry>)
    ensures Carried(a, a) && NoneLost(a, a)
  {
  }

  ghost predicate Narrowed(was: map<Key, set<Key>>, now: map<Key, set<Key>>) {
    forall b | b in now :: b in was && now[b] <= was[b]
  }

  // Steps.

  function Unwaited(waiting: map<Key, set<Key>>, base: Key, key: Key): map<Key, set<Key>> {
    if Waiters(waiting, base) - {key} == {} then Without(waiting, base) else waiting[base := waiting[base] - {key}]
  }

  /** A child leaves its base's waiting set. */
  lemma Unwait(s: State, loose: set<Key>, dying: set<Key>, naming: set<Key>, key: Key)
    requires Sound(s, loose, dying, naming) && key in s.entries && key !in loose && s.entries[key].name.Below?
    ensures var base := s.entries[key].name.base;
            && Sound(s.(waiting := Unwaited(s.waiting, base, key)), loose + {key}, dying + {base}, naming)
            && Narrowed(s.waiting, Unwaited(s.waiting, base, key))
            && (base in s.entries ==> s.born[base] < s.born[key]) && key in s.born
  {
    assert WaitsOn(s.entries, key, s.entries[key].name.base);
  }

  lemma Delete(s: State, loose: set<Key>, dying: set<Key>, naming: set<Key>, key: Key)
    requires Sound(s, loose, dying, naming) && (key in s.entries && s.entries[key].name.Below? ==> key in loose)
    ensures Sound(s.(entries := Without(s.entries, key)), loose - {key}, dying - {key}, naming)
  {
    var entries := Without(s.entries, key);
    assert forall c, b | WaitsOn(s.entries, c, b) && c != key :: WaitsOn(entries, c, b);
    forall b, c | b in s.waiting && c in s.waiting[b]
      ensures WaitsOn(entries, c, b)
    {
      assert WaitsOn(s.entries, c, b) && c !in loose;
    }
    assert forall c, b | WaitsOn(entries, c, b) :: WaitsOn(s.entries, c, b);
  }

  ghost predicate AllWaitOn(entries: map<Key, Entry>, children: set<Key>, base: Key) {
    forall c | c in children :: WaitsOn(entries, c, base)
  }

  /** All the children of a base leave its waiting set. */
  lemma Release(s: State, dying: set<Key>, naming: set<Key>, base: Key)
    requires Sound(s, {}, dying, naming)
    ensures Sound(s.(waiting := Without(s.waiting, base)), Waiters(s.waiting, base), dying + {base}, naming - {base})
    ensures AllWaitOn(s.entries, Waiters(s.waiting, base), base)
  {
    hide Ranked, Truthful;
    ReleaseIndexed(s.entries, s.waiting, base);
  }

  lemma ReleaseIndexed(entries: map<Key, Entry>, waiting: map<Key, set<Key>>, base: Key)
    requires Indexed(entries, waiting, {})
    ensures Indexed(entries, Without(waiting, base), Waiters(waiting, base))
    ensures AllWaitOn(entries, Waiters(waiting, base), base)
  {
    var released := Without(waiting, base);
    forall b, c | b in released && c in released[b]
      ensures WaitsOn(entries, c, b) && c !in Waiters(waiting, base)
    {
      assert WaitsOn(entries, c, b);
      assert c in Waiters(waiting, base) ==> WaitsOn(entries, c, base);
    }
    forall c | c in entries && c !in Waiters(waiting, base) && entries[c].name.Below?
      ensures c in Waiters(released, entries[c].name.base)
    {
      assert c in Waiters(waiting, entries[c].name.base);
    }
  }

  function Renamed(entries: map<Key, Entry>, key: Key, name: Name): map<Key, Entry>
    requires key in entries
  {
    entries[key := entries[key].(name := name)]
  }

  lemma LoseBase(s: State, loose: set<Key>, dying: set<Key>, naming: set<Key>, base: Key, child: Key)
    requires Sound(s, loose, dying, naming) && AllWaitOn(s.entries, loose, base) && child in loose
    ensures WaitsOn(s.entries, child, base)
    ensures var entries := Renamed(s.entries, child, Orphan(s.entries[child].name.rel));
            && Sound(s.(entries := entries), loose - {child}, dying, naming)
                && AllWaitOn(entries, loose - {child}, base)
            && Carried(s.entries, entries)
  {
    assert WaitsOn(s.entries, child, base);
    var entries := Renamed(s.entries, child, Orphan(s.entries[child].name.rel));
    assert forall c, b | c != child :: WaitsOn(s.entries, c, b) == WaitsOn(entries, c, b);
    assert forall b :: !WaitsOn(entries, child, b);
  }

  lemma GetName(s: State, loose: set<Key>, dying: set<Key>, naming: set<Key>, base: Key, child: Key)
    requires Sound(s, loose, dying, naming) && AllWaitOn(s.entries, loose, base) && child in loose
    requires base in s.entries && s.entries[base].name.Full?
    ensures WaitsOn(s.entries, child, base) && child != base
    ensures var entries := Renamed(s.entries, child, Full(Join(s.entries[base].name.path, s.entries[child].name.rel)));
            && Sound(s.(entries := entries), loose - {child}, dying, naming + {child})
                && AllWaitOn(entries, loose - {child}, base)
            && Carried(s.entries, entries)
  {
    assert WaitsOn(s.entries, child, base);
    var entries := Renamed(s.entries, child, Full(Join(s.entries[base].name.path, s.entries[child].name.rel)));
    assert forall c, b | c != child :: WaitsOn(s.entries, c, b) == WaitsOn(entries, c, b);
    assert forall b :: !WaitsOn(entries, child, b);
    assert TrueName(child, s.entries[child].name, s.told) && TrueName(base, s.entries[base].name, s.told);
  }

  /** The naming fits every entry but the one at `key`, and the name that one gets. */
  ghost predicate Fits(entries: map<Key, Entry>, key: Key, name: Name, names: map<Key, string>) {
    TrueName(key, name, names) && forall k | k in entries && k != key :: TrueName(k, entries[k].name, names)
  }

  /** A new entry. */
  lemma Insert(s: State, dying: set<Key>, key: Key, e: Entry, born: nat, names: map<Key, string>)
    requires Sound(s, {key}, dying, {}) && e.closed == None && (key in s.waiting ==> e.name.Full?)
    requires e.name.Below? ==>
               && e.name.base != key && !(e.name.base in s.entries && s.entries[e.name.base].name.Full?)
               && born > 0 && forall k | k in s.born :: s.born[k] < born
    requires e.name.Full? ==> born == 0
    requires Fits(s.entries, key, e.name, names)
    ensures Sound(After(s, key, e, born, names), {}, dying - {key}, if e.name.Full? then {key} else {})
  {
    hide Indexed, NothingWaitsOnNamed, TombstonesNeeded, Ranked, TrueName, Awaited;
    InsertIndexed(s.entries, s.waiting, key, e);
    InsertNothingWaits(s.entries, s.waiting, dying, key, e);
    InsertRanked(s.entries, s.waiting, s.born, key, e, born);
  }

  lemma InsertNothingWaits(entries: map<Key, Entry>, waiting: map<Key, set<Key>>, dying: set<Key>, key: Key, e: Entry)
    requires NothingWaitsOnNamed(entries, waiting, {}) && TombstonesNeeded(entries, waiting, dying) && e.closed == None
    requires e.name.Below? ==>
              key !in waiting && e.name.base != key && !(e.name.base in entries && entries[e.name.base].name.Full?)
    ensures var waiting' := if e.name.Below? then Awaited(waiting, e.name.base, key) else waiting;
            && NothingWaitsOnNamed(entries[key := e], waiting', if e.name.Full? then {key} else {})
            && TombstonesNeeded(entries[key := e], waiting', dying - {key})
  {
  }

  lemma InsertRanked(entries: map<Key, Entry>, waiting: map<Key, set<Key>>, ranks: map<Key, nat>, key: Key, e: Entry,
                     born: nat)
    requires Indexed(entries, waiting, {key}) && Ranked(entries, ranks)
    requires key in waiting ==> e.name.Full?
    requires e.name.Below? ==> e.name.base != key && born > 0 && forall k | k in ranks :: ranks[k] < born
    requires e.name.Full? ==> born == 0
    ensures Ranked(entries[key := e], ranks[key := born])
  {
    var entries', ranks' := entries[key := e], ranks[key := born];
    forall c, b | WaitsOn(entries', c, b) && b in entries'
      ensures ranks'[b] < ranks'[c]
    {
      if c != key {
        assert WaitsOn(entries, c, b);
        assert c in Waiters(waiting, b);
      }
    }
  }

  function After(s: State, key: Key, e: Entry, born: nat, names: map<Key, string>): State {
    State(s.entries[key := e], if e.name.Below? then Awaited(s.waiting, e.name.base, key) else s.waiting,
          s.born[key := born], names)
  }

  function Awaited(waiting: map<Key, set<Key>>, base: Key, key: Key): map<Key, set<Key>> {
    waiting[base := Waiters(waiting, base) + {key}]
  }

  lemma InsertIndexed(entries: map<Key, Entry>, waiting: map<Key, set<Key>>, key: Key, e: Entry)
    requires Indexed(entries, waiting, {key})
    ensures Indexed(entries[key := e], if e.name.Below? then Awaited(waiting, e.name.base, key) else waiting, {})
  {
    var entries' := entries[key := e];
    var waiting' := if e.name.Below? then Awaited(waiting, e.name.base, key) else waiting;
    forall b, c | b in waiting' && c in waiting'[b]
      ensures WaitsOn(entries', c, b)
    {
      assert b in waiting && c in waiting[b] ==> WaitsOn(entries, c, b) && c != key;
    }
    forall c | c in entries' && entries'[c].name.Below?
      ensures c in Waiters(waiting', entries'[c].name.base)
    {
      assert c != key ==> c in Waiters(waiting, entries[c].name.base);
    }
  }

  /** Termination of `unlink`, `drop_if_dead` and `remove`: they go from a child to its base. */
  ghost function Rank(entries: map<Key, Entry>, born: map<Key, nat>, key: Key): nat {
    if key in entries && key in born then born[key] + 1 else 0
  }

  /** The children being unlinked were set after `key`, so it is not one of them. */
  ghost predicate Later(entries: map<Key, Entry>, born: map<Key, nat>, loose: set<Key>, key: Key) {
    forall l | l in loose && l in entries && key in entries :: Rank(entries, born, l) > Rank(entries, born, key)
  }

  ghost function Belows(entries: map<Key, Entry>): set<Key> {
    set k | k in entries && entries[k].name.Below?
  }

  ghost predicate Clocked(entries: map<Key, Entry>, clock: nat) {
    forall k | k in entries :: entries[k].touched <= clock
  }

  ghost predicate Aged(born: map<Key, nat>, age: nat) {
    forall k | k in born :: born[k] <= age
  }

  lemma AgeOf(born: map<Key, nat>, age: nat)
    requires Aged(born, age)
    ensures forall k | k in born :: born[k] < age + 1
  {
  }

  lemma AgeMore(born: map<Key, nat>, age: nat, key: Key, rank: nat)
    requires Aged(born, age) && rank <= age + 1
    ensures Aged(born[key := rank], age + 1)
  {
  }

  predicate IsNamed(entries: map<Key, Entry>, key: Key) {
    key in entries && entries[key].name.Full?
  }

  /** Of the other handles, those still there keep their times and names; one that waited may be named,
      or lose its base. */
  ghost predicate NamesKept(was: map<Key, Entry>, now: map<Key, Entry>, key: Key) {
    forall k | k in now && k != key ::
      && k in was && now[k].closed == was[k].closed
      && now[k].since == was[k].since && now[k].touched == was[k].touched
      && (now[k].name == was[k].name || (was[k].name.Below? && !now[k].name.Below?))
  }

  /** No handle still open is forgotten. */
  ghost predicate LiveStay(was: map<Key, Entry>, now: map<Key, Entry>) {
    forall k | k in was && was[k].closed == None :: k in now && now[k].closed == None
  }

  lemma LiveStayOn(a: map<Key, Entry>, b: map<Key, Entry>, c: map<Key, Entry>)
    requires LiveStay(a, b) && LiveStay(b, c)
    ensures LiveStay(a, c)
  {
  }

  lemma CarriedLive(a: map<Key, Entry>, b: map<Key, Entry>)
    requires Carried(a, b)
    ensures LiveStay(a, b)
  {
  }

  /** No handle loses its base. */
  ghost predicate NoneLost(was: map<Key, Entry>, now: map<Key, Entry>) {
    forall k | k in now && now[k].name.Orphan? :: k in was && was[k].name.Orphan?
  }

  lemma NoneLostOn(a: map<Key, Entry>, b: map<Key, Entry>, c: map<Key, Entry>)
    requires NoneLost(a, b) && NoneLost(b, c)
    ensures NoneLost(a, c)
  {
  }

  /** Children whose base is named now, and that did not lose it, are named. */
  lemma ChildrenNamed(was: map<Key, Entry>, s: State, key: Key)
    requires Sound(s, {}, {}, {}) && IsNamed(s.entries, key) && NamesKept(was, s.entries, key)
    requires NoneLost(was, s.entries)
    ensures forall c | WaitsOn(was, c, key) && c in s.entries && c != key :: s.entries[c].name.Full?
  {
    forall c | WaitsOn(was, c, key) && c in s.entries && c != key
      ensures s.entries[c].name.Full?
    {
      assert WaitsOn(s.entries, c, key) ==> c in Waiters(s.waiting, key);
    }
  }

  /** A tombstone that had closed by then. */
  predicate ClosedBy(entries: map<Key, Entry>, key: Key, taken: i64) {
    key in entries && entries[key].closed.Some? && entries[key].closed.value <= taken
  }

  // What a seed names.

  /** `d` waits for `key`, or for something that does. */
  ghost predicate Descends(entries: map<Key, Entry>, born: map<Key, nat>, d: Key, key: Key)
    decreases Rank(entries, born, d)
  {
    && d != key && d in entries && entries[d].name.Below?
    && var base := entries[d].name.base;
       base == key || (base in entries && Rank(entries, born, base) < Rank(entries, born, d)
           && Descends(entries, born, base, key))
  }

  /** The name `d` gets when `key` is named `full`. */
  ghost function Given(entries: map<Key, Entry>, born: map<Key, nat>, told: map<Key, string>, key: Key, full: string,
                       d: Key): string
    decreases Rank(entries, born, d)
  {
    if d == key then full
    else if d in entries && entries[d].name.Below? && entries[d].name.base == key then Join(full, entries[d].name.rel)
    else if d in entries && entries[d].name.Below? && Rank(entries, born, entries[d].name.base) < Rank(entries, born, d)
            && entries[d].name.base in entries then
      Join(Given(entries, born, told, key, full, entries[d].name.base), entries[d].name.rel)
    else if d in told then told[d] else ""
  }

  ghost function AllGiven(entries: map<Key, Entry>, born: map<Key, nat>, told: map<Key, string>, key: Key,
                          full: string): map<Key, string> {
    map d | d in told.Keys + {key} :: Given(entries, born, told, key, full, d)
  }

  /** The naming that gives `key` another name, and its descendants theirs, fits all other entries. */
  lemma GivenFits(entries: map<Key, Entry>, born: map<Key, nat>, told: map<Key, string>, key: Key, full: string)
    requires Truthful(entries, told) && Ranked(entries, born)
    ensures Fits(entries, key, Full(full), AllGiven(entries, born, told, key, full))
  {
    var names := AllGiven(entries, born, told, key, full);
    forall k | k in entries && k != key
      ensures TrueName(k, entries[k].name, names)
    {
      assert TrueName(k, entries[k].name, told);
      if entries[k].name.Below? {
        var base := entries[k].name.base;
        assert WaitsOn(entries, k, base);
        assert base in entries ==> born[base] < born[k];
      }
    }
  }

  /** Nothing else is renamed, and nothing at all by the name already told. */
  lemma {:induction false} GivenSame(entries: map<Key, Entry>, born: map<Key, nat>, told: map<Key, string>, key: Key,
                                     full: string, d: Key)
    requires Truthful(entries, told) && Ranked(entries, born) && d in told
    requires (key in told && told[key] == full) || (d != key && !Descends(entries, born, d, key))
    ensures Given(entries, born, told, key, full, d) == told[d]
    decreases Rank(entries, born, d)
  {
    if d != key && d in entries && entries[d].name.Below? {
      var base := entries[d].name.base;
      assert TrueName(d, entries[d].name, told) && WaitsOn(entries, d, base);
      if base != key && base in entries {
        assert born[base] < born[d];
        GivenSame(entries, born, told, key, full, base);
      }
    }
  }

  /** After a seed: what waited under the key is named, if it did not lose its base. */
  lemma {:induction false} DescendantNamed(was: map<Key, Entry>, born: map<Key, nat>, now: map<Key, Entry>,
                                           waiting: map<Key, set<Key>>, key: Key, d: Key)
    requires Indexed(now, waiting, {}) && NothingWaitsOnNamed(now, waiting, {}) && IsNamed(now, key)
    requires NamesKept(was, now, key) && NoneLost(was, now) && Needless(was, now, waiting)
    requires Descends(was, born, d, key) && d in now
    ensures now[d].name.Full?
    decreases Rank(was, born, d)
  {
    var base := was[d].name.base;
    if now[d].name.Below? {
      assert now[d].name == was[d].name && d in Waiters(waiting, base);
      if base != key && base in now {
        DescendantNamed(was, born, now, waiting, key, base);
      }
      assert false;
    }
  }

  /** What is gone is waited on by nobody. */
  ghost predicate Needless(was: map<Key, Entry>, now: map<Key, Entry>, waiting: map<Key, set<Key>>) {
    forall k | k in was && k !in now :: k !in waiting
  }

  lemma NeedlessOn(a: map<Key, Entry>, b: map<Key, Entry>, c: map<Key, Entry>,
                   w: map<Key, set<Key>>, w': map<Key, set<Key>>)
    requires Needless(a, b, w) && Narrowed(w, w') && Needless(b, c, w')
    ensures Needless(a, c, w')
  {
  }

  lemma NothingGone(entries: map<Key, Entry>, now: map<Key, Entry>, waiting: map<Key, set<Key>>)
    requires entries.Keys == now.Keys
    ensures Needless(entries, now, waiting) && Narrowed(waiting, waiting)
  {
  }

  lemma NarrowedOn(a: map<Key, set<Key>>, b: map<Key, set<Key>>, c: map<Key, set<Key>>)
    requires Narrowed(a, b) && Narrowed(b, c)
    ensures Narrowed(a, c)
  {
    assert forall k | k in c :: k in b;
  }

  /** The name already told changes no other. */
  lemma AllGivenSame(entries: map<Key, Entry>, born: map<Key, nat>, told: map<Key, string>, key: Key, full: string)
    requires Truthful(entries, told) && Ranked(entries, born) && key in told && told[key] == full
    ensures AllGiven(entries, born, told, key, full) == told
  {
    hide Given, Truthful, Ranked;
    forall d | d in told
      ensures Given(entries, born, told, key, full, d) == told[d]
    {
      GivenSame(entries, born, told, key, full, d);
    }
  }

  /** True names stay true through a seed, that of the key and those of all that waits under it, exactly
      if it gives the name of the object that is at the address. */
  lemma SeedExact(was: map<Key, Entry>, born: map<Key, nat>, told: map<Key, string>, truth: map<Key, string>,
                  now: map<Key, Entry>, key: Key, full: string)
    requires Truthful(was, truth) && Ranked(was, born)
    requires told == AllGiven(was, born, truth, key, full) && Truthful(now, told)
    requires key in now ==> now[key].name == Full(full)
    ensures key in truth && truth[key] == full ==> Truthful(now, truth)
    ensures key in now ==> (Truthful(now, truth) <==> key in truth && truth[key] == full)
  {
    hide AllGiven, Ranked, Truthful;
    if key in truth && truth[key] == full {
      AllGivenSame(was, born, truth, key, full);
    }
    if key in now && Truthful(now, truth) {
      NamedTruly(now, truth, key);
    }
  }

  lemma NamedTruly(entries: map<Key, Entry>, truth: map<Key, string>, key: Key)
    requires IsNamed(entries, key) && Truthful(entries, truth)
    ensures key in truth && truth[key] == entries[key].name.path
  {
    assert TrueName(key, entries[key].name, truth);
  }

  ghost predicate IsNewest(entries: map<Key, Entry>, key: Key) {
    key in entries && forall k | k in entries && k != key :: entries[k].touched < entries[key].touched
  }

  /** What goes is what nothing needs any more. */
  ghost predicate Fewer(was: map<Key, Entry>, now: map<Key, Entry>) {
    && (forall k | k in now :: k in was && now[k] == was[k])
    && (forall k | k in was && was[k].closed == None :: k in now)
  }

  class Keys {
    var entries: map<Key, Entry>
    var waiting: map<Key, set<Key>>
    const cap: nat
    var clock: nat
    var evictions: nat
    ghost var born: map<Key, nat>
    ghost var age: nat
    ghost var told: map<Key, string>
    /** The true name of the object last opened at each address. */
    ghost var truth: map<Key, string>
    /** The objects each address held, by the events processed, with the time of each. */
    ghost var held: map<Key, seq<Held>>
    /** The time of the latest open or close. */
    ghost var newest: i64
    /** So far opens and closes came in time order, with the bases known, and every seed fitted. */
    ghost var timely: bool

    ghost function Now(): State
      reads `entries, `waiting, `born, `told
    {
      State(entries, waiting, born, told)
    }

    ghost predicate Valid()
      reads this
    {
      && Structured()
      && (timely ==> NamesTrue() && Remembers(held, truth) && Dated(entries, held))
    }

    ghost predicate Structured()
      reads `entries, `waiting, `clock, `born, `told, `age
    {
      Sound(Now(), {}, {}, {}) && Clocked(entries, clock) && Aged(born, age) && |entries| <= cap
    }

    /** Every name is the true one of the object last opened at its address. */
    ghost predicate NamesTrue()
      reads `entries, `truth
    {
      Truthful(entries, truth)
    }

    /** `world` names the objects already open when the trace starts. */
    constructor (cap: nat, world: map<Key, string>)
      ensures Valid() && entries == map[] && truth == world && timely && this.cap == cap && evictions == 0
      ensures newest == I64_MIN && held == map k | k in world :: [Held(I64_MIN, world[k])]
    {
      entries, waiting, this.cap, clock, evictions := map[], map[], cap, 0, 0;
      born, age, told, truth := map[], 0, world, world;
      held, newest, timely := map k | k in world :: [Held(I64_MIN, world[k])], I64_MIN, true;
    }

    /** Takes `key` out of its base's waiting set; a base kept only for it goes. */
    method Unlink(key: Key, ghost loose: set<Key>, ghost dying: set<Key>, ghost naming: set<Key>)
      requires Sound(Now(), loose, dying, naming) && Later(entries, born, loose, key)
      modifies this`entries, this`waiting
      ensures Sound(Now(), loose + {key}, dying, naming)
      ensures Fewer(old(entries), entries) && Narrowed(old(waiting), waiting)
      ensures Needless(old(entries), entries, waiting)
      ensures forall k | k in old(entries) && k !in entries ::
                Rank(old(entries), born, k) < Rank(old(entries), born, key)
      decreases Rank(entries, born, key), 0
    {
      if key in entries && entries[key].name.Below? {
        var base := entries[key].name.base;
        Unwait(Now(), loose, dying, naming, key);
        waiting := Unwaited(waiting, base, key);
        DropIfDead(base, loose + {key}, dying + {base}, naming);
      }
    }

    /** Removes a tombstone that no key waits on. */
    method DropIfDead(key: Key, ghost loose: set<Key>, ghost dying: set<Key>, ghost naming: set<Key>)
      requires Sound(Now(), loose, dying, naming) && Later(entries, born, loose, key)
      modifies this`entries, this`waiting
      ensures Sound(Now(), loose, dying - {key}, naming)
      ensures Fewer(old(entries), entries) && Narrowed(old(waiting), waiting)
      ensures Needless(old(entries), entries, waiting)
      ensures forall k | k in old(entries) && k !in entries ::
                Rank(old(entries), born, k) <= Rank(old(entries), born, key)
      decreases Rank(entries, born, key), 2
    {
      if key !in waiting && key in entries && entries[key].closed.Some? {
        Remove(key, loose, dying, naming);
      }
    }

    method Remove(key: Key, ghost loose: set<Key>, ghost dying: set<Key>, ghost naming: set<Key>)
      requires Sound(Now(), loose, dying, naming) && Later(entries, born, loose, key) && key in entries
      requires key !in waiting
      modifies this`entries, this`waiting
      ensures Sound(Now(), loose, dying - {key}, naming)
      ensures key !in entries && Narrowed(old(waiting), waiting) && Needless(old(entries), entries, waiting)
      ensures forall k | k in entries :: k in old(entries) && entries[k] == old(entries)[k]
      ensures forall k | k in old(entries) && old(entries)[k].closed == None && k != key :: k in entries
      ensures forall k | k in old(entries) && k !in entries ::
                Rank(old(entries), born, k) <= Rank(old(entries), born, key)
      decreases Rank(entries, born, key), 1
    {
      Unlink(key, loose, dying, naming);
      Delete(Now(), loose + {key}, dying, naming, key);
      entries := Without(entries, key);
    }

    /** What waits on `key` becomes an orphan. */
    method OrphanChildren(key: Key)
      requires Sound(Now(), {}, {}, {})
      modifies this`entries, this`waiting
      ensures Sound(Now(), {}, {key}, {}) && waiting == Without(old(waiting), key)
      ensures Orphaned(old(entries), entries, Waiters(old(waiting), key)) && Carried(old(entries), entries)
    {
      hide Sound, Carried, Waiters, Without, Orphaned, Renamed;
      ghost var was := entries;
      var children := Waiters(waiting, key);
      ghost var released := children;
      Release(Now(), {}, {}, key);
      assert {} + {key} == {key} && {} - {key} == {};
      CarriedSelf(entries);
      NoneOrphaned(entries);
      waiting := Without(waiting, key);
      while children != {}
        invariant Sound(Now(), children, {key}, {}) && AllWaitOn(entries, children, key)
        invariant Orphaned(was, entries, released - children) && Carried(was, entries) && children <= released
        invariant waiting == Without(old(waiting), key)
        decreases |children|
      {
        var child :| child in children;
        LoseBase(Now(), children, {key}, {}, key, child);
        ghost var next := Renamed(entries, child, Orphan(entries[child].name.rel));
        CarriedOn(was, entries, next);
        OneOrphaned(was, entries, released - children, child);
        assert released - (children - {child}) == released - children + {child};
        entries := Renamed(entries, child, Orphan(entries[child].name.rel));
        children := children - {child};
      }
      assert released - children == released;
    }

    /** What waits on `key` is named, and what waits on that, and so on. */
    method NameChildren(key: Key)
      requires Sound(Now(), {}, {}, {key})
      modifies this`entries, this`waiting
      ensures Sound(Now(), {}, {}, {}) && Carried(old(entries), entries) && NoneLost(old(entries), entries)
      ensures Narrowed(old(waiting), waiting) && Needless(old(entries), entries, waiting)
    {
      hide Sound, Carried, NoneLost, Narrowed, Needless;
      var stack := [key];
      ghost var was, waited := entries, waiting;
      CarriedSelf(entries);
      NothingGone(entries, entries, waiting);
      assert Elements(stack) == {key};
      while stack != []
        invariant Sound(Now(), {}, {}, Elements(stack)) && Carried(was, entries) && NoneLost(was, entries)
        invariant Narrowed(waited, waiting) && Needless(was, entries, waiting)
        decreases |Belows(entries)| + |stack|
      {
        var base := stack[|stack| - 1];
        assert stack == stack[..|stack| - 1] + [base];
        stack := stack[..|stack| - 1];
        NextToName(Now(), stack, base);
        if base in entries && entries[base].name.Full? {
          ghost var before, then_ := entries, waiting;
          stack := NameBelow(base, stack);
          NeedlessOn(was, before, entries, then_, waiting);
          NarrowedOn(waited, then_, waiting);
          CarriedOn(was, before, entries);
          NoneLostOn(was, before, entries);
        }
      }
      assert Elements(stack) == {};
    }

    /** Names the children waiting for `base`; each joins the stack. */
    method NameBelow(base: Key, stack: seq<Key>) returns (more: seq<Key>)
      requires Sound(Now(), {}, {}, Elements(stack) + {base}) && base in entries && entries[base].name.Full?
      modifies this`entries, this`waiting
      ensures Sound(Now(), {}, {}, Elements(more)) && Carried(old(entries), entries) && NoneLost(old(entries), entries)
      ensures |Belows(entries)| + |more| <= |Belows(old(entries))| + |stack|
      ensures Narrowed(old(waiting), waiting) && Needless(old(entries), entries, waiting)
    {
      hide Sound, Carried, Waiters, Belows, Elements, NoneLost, Narrowed, Needless, Without;
      more := stack;
      ghost var was := entries;
      CarriedSelf(entries);
      Release(Now(), {}, Elements(stack) + {base}, base);
      var children := Waiters(waiting, base);
      WithoutNarrows(waiting, base);
      ghost var waited := waiting;
      waiting := Without(waiting, base);
      Fit(Now(), children, stack, base);
      var path := entries[base].name.path;
      while children != {}
        invariant Sound(Now(), children, {base}, Elements(more)) && AllWaitOn(entries, children, base)
        invariant base in entries && entries[base].name == Full(path) && Carried(was, entries) && NoneLost(was, entries)
        invariant |Belows(entries)| + |more| == |Belows(was)| + |stack|
        invariant entries.Keys == was.Keys && Narrowed(waited, waiting)
        decreases |children|
      {
        var child :| child in children;
        GetName(Now(), children, {base}, Elements(more), base, child);
        ghost var next := Renamed(entries, child, Full(Join(path, entries[child].name.rel)));
        CarriedOn(was, entries, next);
        OneNamed(entries, child, Full(Join(path, entries[child].name.rel)));
        NoneLostOn(was, entries, next);
        Pushed(more, child);
        entries := Renamed(entries, child, Full(Join(path, entries[child].name.rel)));
        more := more + [child];
        children := children - {child};
      }
      ghost var before, then_ := entries, waiting;
      NothingGone(was, entries, waiting);
      DropIfDead(base, {}, {base}, Elements(more));
      NeedlessOn(was, before, entries, then_, waiting);
      NarrowedOn(waited, then_, waiting);
      FewerCarried(was, before, entries);
      NoneLostOn(was, before, entries);
      assert {base} - {base} == {};
    }

    /** Sets the entry of `key`, which survives the eviction that this may cause. */
    method Set(key: Key, name: Name, since: i64, ghost names: map<Key, string>)
      requires Sound(Now(), {}, {key}, {}) && Clocked(entries, clock) && Aged(born, age) && |entries| <= cap
      requires key in waiting ==> name.Full?
      requires name.Below? ==> name.base != key && !IsNamed(entries, name.base)
      requires !name.Orphan?
      requires Fits(entries, key, name, names)
      modifies this`entries, this`waiting, this`clock, this`evictions, this`born, this`told, this`age
      ensures Structured() && told == names
      ensures NamesKept(old(entries), entries, key) && NoneLost(old(entries), entries)
      ensures cap >= 1 ==>
                && key in entries && entries[key].name == name
                && entries[key].since == since && entries[key].closed == None
      ensures |old(entries)| < cap ==> LiveStay(old(entries), entries) && evictions == old(evictions)
      ensures cap >= 1 ==> IsNewest(entries, key)
      ensures OldestGone(old(entries), entries, key)
      ensures name.Full? ==>
                forall d | d in entries && Descends(old(entries), old(born), d, key) :: entries[d].name.Full?
    {
      hide LiveStay, Sound, Clocked, Aged, NamesKept, NoneLost, TrueName, Carried, IsNewest, IsNamed, Fits, Descends,
          Needless, Narrowed, OldestOf, OldestGone;
      ghost var was := entries;
      ghost var ranks := born;
      Put(key, name, since, names);
      ghost var with := entries;
      CarriedSelf(with);
      if name.Full? {
        ghost var waited := waiting;
        NameChildren(key);
        NeedlessOn(was, with, entries, waited, waiting);
      }
      NewestIs(with, entries, clock, key, with[key]);
      KeptBy(was, with, entries, key);
      CarriedLive(with, entries);
      LiveStayOn(was, with, entries);
      NoneLostOn(was, with, entries);
      if name.Full? {
        AllNamed(was, ranks, Now(), key);
      }
      if |entries| > cap {
        ghost var before := entries;
        ghost var gone := EvictBatch(key);
        FewerEntries(before, entries, clock);
        KeptStill(was, before, entries, key);
        NoneLostOn(was, before, entries);
        OldestWent(was, before, entries, key, gone);
        StaysNewest(before, entries, key);
      } else {
        NoneWent(was, entries, key);
      }
    }

    method Put(key: Key, name: Name, since: i64, ghost names: map<Key, string>)
      requires Sound(Now(), {}, {key}, {}) && Clocked(entries, clock) && Aged(born, age)
      requires key in waiting ==> name.Full?
      requires name.Below? ==> name.base != key && !IsNamed(entries, name.base)
      requires !name.Orphan?
      requires Fits(entries, key, name, names)
      modifies this`entries, this`waiting, this`clock, this`born, this`told, this`age
      ensures Sound(Now(), {}, {}, if name.Full? then {key} else {}) && Clocked(entries, clock) && Aged(born, age)
      ensures told == names && |entries| <= |old(entries)| + 1
      ensures name.Full? ==> Needless(old(entries), entries, waiting)
      ensures OthersKept(old(entries), entries, key)
      ensures IsNewest(entries, key) && key in entries && entries[key] == Entry(name, since, None, clock)
    {
      hide OthersKept, Sound, Clocked, Aged, TrueName, IsNewest, IsNamed, Without, Fits, Needless, Awaited;
      var e := Entry(name, since, None, clock + 1);
      Detach(key, e, names);
      Enter(key, e, names);
    }

    /** Makes way for an entry: the key no longer waits on the base of the entry before. */
    method Detach(key: Key, ghost e: Entry, ghost names: map<Key, string>)
      requires Sound(Now(), {}, {key}, {}) && Clocked(entries, clock)
      requires Fits(entries, key, e.name, names) && !e.name.Orphan? && e.closed == None && e.touched == clock + 1
      modifies this`entries, this`waiting, this`clock
      ensures Sound(Now(), {key}, {key}, {}) && clock == old(clock) + 1
      ensures key in waiting ==> key in old(waiting)
      ensures e.name.Below? && !IsNamed(old(entries), e.name.base) ==> !IsNamed(entries, e.name.base)
      ensures Fits(entries, key, e.name, names)
      ensures Replaced(old(entries), entries[key := e], waiting, clock, key)
    {
      hide OthersKept, Sound, Clocked, Fewer, Narrowed, TrueName, IsNewest, Later, IsNamed, Carried, Without, Fits,
           Needless, Rank, Replaced;
      ghost var was, waited := entries, waiting;
      NoneLoose(entries, born, key);
      Unlink(key, {}, {key}, {});
      assert {} + {key} == {key};
      clock := clock + 1;
      Unlinked(was, entries, waited, waiting, clock - 1, key, e, names);
    }

    method Enter(key: Key, e: Entry, ghost names: map<Key, string>)
      requires Sound(Now(), {key}, {key}, {}) && Aged(born, age)
      requires key in waiting ==> e.name.Full?
      requires e.name.Below? ==> e.name.base != key && !IsNamed(entries, e.name.base)
      requires !e.name.Orphan? && e.closed == None
      requires Fits(entries, key, e.name, names)
      modifies this`entries, this`waiting, this`born, this`told, this`age
      ensures Sound(Now(), {}, {}, if e.name.Full? then {key} else {}) && Aged(born, age)
      ensures told == names && entries == old(entries)[key := e]
      ensures waiting == if e.name.Below? then Awaited(old(waiting), e.name.base, key) else old(waiting)
    {
      hide Sound, Aged, TrueName, Awaited, Fits;
      AgeOf(born, age);
      ghost var rank := if e.name.Full? then 0 else age + 1;
      Insert(Now(), {key}, key, e, rank, names);
      assert {key} - {key} == {};
      AgeMore(born, age, key, rank);
      if e.name.Below? {
        waiting := Awaited(waiting, e.name.base, key);
      }
      entries, born, told, age := entries[key := e], born[key := rank], names, age + 1;
    }

    /** Evicts a batch, and with it the tombstones that only these needed. */
    method EvictBatch(ghost newest: Key) returns (ghost gone: seq<Key>)
      requires Sound(Now(), {}, {}, {}) && 1 <= |entries|
      modifies this`entries, this`waiting, this`evictions
      ensures Sound(Now(), {}, {}, {}) && |entries| < |old(entries)|
      ensures forall k | k in entries :: k in old(entries) && entries[k] == old(entries)[k]
      ensures old(evictions) < evictions <= old(evictions) + |old(entries)| - |entries|
      ensures OldestOf(old(entries), gone) && |gone| == BatchSize(|old(entries)|)
      ensures forall v | v in gone :: v !in entries
      ensures forall k | k in old(entries) && old(entries)[k].closed == None :: k in entries <==> k !in gone
      ensures |old(entries)| >= 2 && IsNewest(old(entries), newest) && old(entries)[newest].closed == None ==>
                newest in entries
    {
      hide Sound, IsNewest, OldestOf;
      var victims := Oldest(entries);
      gone := victims;
      ghost var was := entries;
      if |was| >= 2 && IsNewest(was, newest) {
        NewestStays(was, victims, newest);
      }
      var i := 0;
      while i < |victims|
        invariant i <= |victims| && Sound(Now(), {}, {}, {})
        invariant forall k | k in entries :: k in was && entries[k] == was[k]
        invariant i == 0 ==> entries == was
        invariant i > 0 ==> old(evictions) < evictions
        invariant old(evictions) <= evictions <= old(evictions) + |was| - |entries|
        invariant forall k | k in was && was[k].closed == None && k !in victims[..i] :: k in entries
        invariant forall j | 0 <= j < i :: victims[j] !in entries
      {
        EvictOne(victims[i]);
        i := i + 1;
      }
      assert victims[..i] == victims;
    }

    method EvictOne(key: Key)
      requires Sound(Now(), {}, {}, {})
      modifies this`entries, this`waiting, this`evictions
      ensures Sound(Now(), {}, {}, {}) && key !in entries
      ensures forall k | k in entries :: k in old(entries) && entries[k] == old(entries)[k]
      ensures forall k | k in old(entries) && old(entries)[k].closed == None && k != key :: k in entries
      ensures evictions == old(evictions) + (if key in old(entries) then 1 else 0)
      ensures |entries| + evictions <= |old(entries)| + old(evictions)
    {
      hide Sound, Narrowed;
      ghost var before := entries;
      NoneLoose(entries, born, key);
      Unlink(key, {}, {}, {});
      FewerEntries(before, entries, clock);
      Delete(Now(), {} + {key}, {}, {}, key);
      assert {} + {key} - {key} == {} && {} - {key} == {};
      if key in entries {
        OneLess(entries, key);
        entries := Without(entries, key);
        evictions := evictions + 1;
      } else {
        NotThere(entries, key);
      }
    }

    /** A successful open or create: a new object at `key`. Its name is known if it is whole, or the
        base's is; otherwise it waits for the base. What waited on the address lost its base. */
    method Open(key: Key, base: Key, relative: string, ts: i64)
      requires Valid()
      requires !StartsWithRegistry(relative) ==> base != key
      modifies this
      ensures Valid() && newest == Max(old(newest), ts) && truth == NowHeld(old(truth), key, base, relative)
      ensures held == OpenHeld(old(held), old(truth), key, base, relative, ts)
      // Names stay true while the base's true name is known.
      ensures old(NamesTrue()) && (StartsWithRegistry(relative) || base in old(truth)) ==> NamesTrue()
      ensures timely == (old(timely) && ts >= old(newest) && (StartsWithRegistry(relative) || base in old(truth)))
      ensures Entered(old(entries), entries, key, OpenName(old(entries), base, relative), ts, cap)
      ensures cap >= 1 ==> key in entries && entries[key].since == ts && entries[key].closed == None
      ensures cap >= 1 && StartsWithRegistry(relative) ==> entries[key].name == Full(relative)
      ensures cap >= 1 && !StartsWithRegistry(relative) ==>
                entries[key].name
                == if IsNamed(old(entries), base) then Full(Join(old(entries)[base].name.path, relative))
                   else Below(base, relative)
      ensures ChildrenOrphaned(old(entries), entries, key)
      ensures |old(entries)| < cap ==> evictions == old(evictions)
      ensures cap >= 1 ==> IsNewest(entries, key)
      ensures OldestGone(old(entries), entries, key)
    {
      hide Entered, ChildrenOrphaned, StartsWithRegistry, Truthful, Remembers, NowHeld, Told, OpenName, Keys.Structured,
           Dated, OpenHeld, OldestGone, IsNewest;
      ghost var was := entries;
      Retell();
      OpenNamed(key, base, relative, ts);
      Fewest();
      OpenedAs(was, entries, key, base, relative, ts, cap);
      OpenDated(was, entries, held, truth, key, base, relative, ts, cap);
      Learn(key, base, relative, ts);
    }

    lemma Fewest()
      requires Structured()
      ensures |entries| <= cap
    {
      hide Sound, Clocked, Aged;
    }

    /** What an open says of the world. */
    ghost method Learn(key: Key, base: Key, relative: string, ts: i64)
      requires Structured() && (timely ==> Remembers(held, truth))
      modifies `held, `truth, `newest, `timely
      ensures newest == Max(old(newest), ts) && truth == NowHeld(old(truth), key, base, relative)
      ensures held == OpenHeld(old(held), old(truth), key, base, relative, ts)
      ensures timely == (old(timely) && ts >= old(newest) && (StartsWithRegistry(relative) || base in old(truth)))
      ensures timely ==> Remembers(held, truth)
      ensures (StartsWithRegistry(relative) || base in old(truth)) && told == Told(old(truth), key, base, relative) ==>
                NamesTrue()
    {
      hide StartsWithRegistry, Truthful, Remembers, NowHeld, Told, Keys.Structured, OpenHeld;
      TrueNames();
      ToldTruly(truth, key, base, relative);
      OpenRemembered(held, truth, key, base, relative, ts);
      timely := timely && ts >= newest && (StartsWithRegistry(relative) || base in truth);
      held := OpenHeld(held, truth, key, base, relative, ts);
      truth, newest := NowHeld(truth, key, base, relative), Max(newest, ts);
    }

    /** While the names are true they are also what the map was told. */
    ghost method Retell()
      requires Structured()
      modifies `told
      ensures Structured() && (NamesTrue() ==> told == truth)
    {
      hide Sound, Truthful;
      if Truthful(entries, truth) {
        Retold(Now(), truth);
        told := truth;
      }
    }

    lemma TrueNames()
      requires Structured()
      ensures Truthful(entries, told) && Ranked(entries, born)
    {
      hide Truthful, Ranked;
      SoundNames(Now());
    }

    /** What `Open` does to the map, and the names it then holds. */
    method OpenNamed(key: Key, base: Key, relative: string, ts: i64)
      requires Structured()
      requires !StartsWithRegistry(relative) ==> base != key
      modifies this`entries, this`waiting, this`clock, this`evictions, this`born, this`told, this`age
      ensures Structured() && told == Told(old(told), key, base, relative)
      ensures Entered(old(entries), entries, key, OpenName(old(entries), base, relative), ts, cap)
      ensures ChildrenOrphaned(old(entries), entries, key)
      ensures |old(entries)| < cap ==> evictions == old(evictions)
      ensures cap >= 1 ==> IsNewest(entries, key)
      ensures OldestGone(old(entries), entries, key)
    {
      hide LiveStay, Sound, Clocked, Aged, Orphaned, Carried, NamesKept, StartsWithRegistry, Join, Fits, Told, Descends,
           OldestGone, IsNewest;
      ghost var was, waited := entries, Waiters(waiting, key);
      Alone(Now(), key);
      OrphanChildren(key);
      AfterOrphans(was, entries, waited, clock, base);
      var name := OpenName(entries, base, relative);
      OpenFits(Now(), key, base, relative);
      ghost var before := entries;
      CarriedLive(was, before);
      Set(key, name, ts, Told(told, key, base, relative));
      if |was| < cap {
        LiveStayOn(was, before, entries);
      }
      OrphansOldest(was, before, entries, waited, key);
      OpenKeeps(was, before, entries, waited, key);
    }

    /** A name read at `taken`, which loses to an entry newer than that. A tombstone closed by then was
        another object, so what waits on it is not named. */
    method Seed(key: Key, full: string, taken: i64) returns (ok: bool, ghost another: bool)
      requires Valid()
      modifies this
      ensures Valid() && (!ok <==> key in old(entries) && old(entries)[key].since > taken)
      ensures !ok ==> entries == old(entries) && waiting == old(waiting)
      // A name read after the handle closed is that of another object, not heard of before.
      ensures another <==> ok && key in old(entries) && old(entries)[key].closed.Some?
                           && old(entries)[key].closed.value <= taken
      ensures truth == if another then old(truth)[key := full] else old(truth)
      ensures held == if another then Since(old(held), key, taken, full) else old(held)
      // What is taken is named, and all that waited for it.
      ensures ok && cap >= 1 ==> key in entries && entries[key] == Entry(Full(full), taken, None, entries[key].touched)
      ensures ok && !another ==>
                forall d | d in entries && Descends(old(entries), old(born), d, key) :: entries[d].name.Full?
      // Names stay true by a seed that is right: if it is not taken before the object at the address was
      // opened, or the map knows the address. However late it comes.
      ensures newest == old(newest) && timely == (old(timely) && SeedFits(old(entries), old(held), key, full, taken))
      // In any run, exactly if it gives the name of the object at the address.
      ensures ok && old(NamesTrue()) && !another && cap >= 1 ==>
                (NamesTrue() <==> key in old(truth) && old(truth)[key] == full)
      ensures another && old(NamesTrue()) ==> NamesTrue()
      // What was named by it is open.
      ensures ok && !another ==>
                forall d | d in entries && Descends(old(entries), old(born), d, key) :: old(entries)[d].closed == None
      ensures ok ==> Entered(old(entries), entries, key, Full(full), taken, cap)
      ensures ok && !another ==> ChildrenJoined(old(entries), entries, key, full)
      ensures another ==> ChildrenOrphaned(old(entries), entries, key)
      ensures ok && |old(entries)| < cap ==> evictions == old(evictions)
    {
      hide Entered, ChildrenJoined, ChildrenOrphaned, NamesKept, Truthful, Remembers, Descends, AllGiven, SeedFits,
           Ranked, Keys.Structured, Dated, Since, LastBefore;
      ghost var was := entries;
      another := false;
      ghost var fits := SeedFits(entries, held, key, full, taken);
      timely := timely && fits;
      if key in entries && entries[key].since > taken { return false, false; }
      Retell();
      ok := true;
      if ClosedBy(entries, key, taken) {
        SeedAnother(key, full, taken);
        another := true;
      } else {
        if timely {
          FitsPresent(entries, held, truth, key, full, taken);
        }
        SeedPresent(key, full, taken);
      }
      EnteredName(was, entries, key, full, taken, cap);
    }

    /** A seed for an object that the map had not heard of. */
    method SeedAnother(key: Key, full: string, taken: i64)
      requires Structured() && ClosedBy(entries, key, taken) && (NamesTrue() ==> told == truth)
      modifies this`entries, this`waiting, this`clock, this`evictions, this`born, this`told, this`age, this`held,
               this`truth
      ensures Structured() && (old(NamesTrue()) ==> NamesTrue())
      ensures truth == old(truth)[key := full] && held == Since(old(held), key, taken, full)
      ensures Remembers(old(held), old(truth)) ==> Remembers(held, truth)
      ensures Dated(old(entries), old(held)) ==> Dated(entries, held)
      ensures Entered(old(entries), entries, key, Full(full), taken, cap)
                && ChildrenOrphaned(old(entries), entries, key)
      ensures |old(entries)| < cap ==> evictions == old(evictions)
    {
      hide Entered, ChildrenOrphaned, NamesKept, Truthful, Remembers, ClosedBy, Keys.Structured, Dated, Since;
      ghost var was := entries;
      SeedTombstone(key, full, taken);
      SeenSince(held, truth, key, taken, full);
      held, truth := Since(held, key, taken, full), truth[key := full];
      TrueNames();
      Fewest();
      SeedDated(was, entries, old(held), held, key, full, taken, cap);
    }

    /** A seed for the object that is at the address. */
    method SeedPresent(key: Key, full: string, taken: i64)
      requires Structured() && (NamesTrue() ==> told == truth)
      modifies this`entries, this`waiting, this`clock, this`evictions, this`born, this`told, this`age
      ensures Structured()
      ensures old(NamesTrue()) && key in truth && truth[key] == full ==> NamesTrue()
      ensures old(NamesTrue()) && cap >= 1 ==> (NamesTrue() <==> key in truth && truth[key] == full)
      ensures Dated(old(entries), held) && LastBefore(held, key, taken) ==> Dated(entries, held)
      ensures forall d | d in entries && Descends(old(entries), old(born), d, key) ::
                old(entries)[d].closed == None && entries[d].name.Full?
      ensures Entered(old(entries), entries, key, Full(full), taken, cap)
                && ChildrenJoined(old(entries), entries, key, full)
      ensures |old(entries)| < cap ==> evictions == old(evictions)
    {
      hide Entered, ChildrenJoined, NamesKept, Truthful, Descends, AllGiven, Ranked, Keys.Structured, Dated, LastBefore;
      ghost var was, ranks := entries, born;
      TrueNames();
      SeedNamed(key, full, taken);
      TrueNames();
      if Truthful(was, truth) {
        SeedExact(was, ranks, told, truth, entries, key, full);
      }
      Fewest();
      SeedDated(was, entries, held, held, key, full, taken, cap);
      EnteredName(was, entries, key, full, taken, cap);
    }

    /** A seed that names an entry, and all that waits for it. */
    method SeedNamed(key: Key, full: string, taken: i64)
      requires Structured()
      modifies this`entries, this`waiting, this`clock, this`evictions, this`born, this`told, this`age
      ensures Structured() && told == AllGiven(old(entries), old(born), old(told), key, full)
      ensures NamesKept(old(entries), entries, key) && Ranked(old(entries), old(born))
      ensures forall d | d in entries && Descends(old(entries), old(born), d, key) :: entries[d].name.Full?
      ensures forall d | d in entries && Descends(old(entries), old(born), d, key) :: old(entries)[d].closed == None
      ensures key in entries ==> entries[key].name == Full(full)
      ensures Entered(old(entries), entries, key, Full(full), taken, cap)
                && ChildrenJoined(old(entries), entries, key, full)
      ensures |old(entries)| < cap ==> evictions == old(evictions)
    {
      hide LiveStay, Sound, Clocked, Aged, NamesKept, Truthful, Descends, Given, AllGiven, Fits, Ranked;
      ghost var was, ranks, before := entries, born, told;
      SoundNames(Now());
      GivenFits(entries, born, told, key, full);
      Widen(Now(), key);
      Set(key, Full(full), taken, AllGiven(entries, born, told, key, full));
      SoundNames(Now());
      ChildrenGiven(was, ranks, before, entries, key, full);
      NotEmpty(entries, key);
      NamedAreLive(was, ranks, Now(), key);
    }

    /** A seed for a tombstone that had closed: what waits for it waited for an earlier object. */
    method SeedTombstone(key: Key, full: string, taken: i64)
      requires Structured() && ClosedBy(entries, key, taken)
      modifies this`entries, this`waiting, this`clock, this`evictions, this`born, this`told, this`age
      ensures Structured() && told == old(told)[key := full]
      ensures NamesKept(old(entries), entries, key)
      ensures Entered(old(entries), entries, key, Full(full), taken, cap)
                && ChildrenOrphaned(old(entries), entries, key)
      ensures |old(entries)| < cap ==> evictions == old(evictions)
    {
      hide LiveStay, Sound, Clocked, Aged, Orphaned, Carried, NamesKept, Fits, Descends;
      ghost var was, waited := entries, Waiters(waiting, key);
      Alone(Now(), key);
      OrphanChildren(key);
      AfterOrphans(was, entries, waited, clock, key);
      NewNameFits(Now(), key, Full(full), told[key := full]);
      ghost var before := entries;
      CarriedLive(was, before);
      Set(key, Full(full), taken, told[key := full]);
      if |was| < cap {
        LiveStayOn(was, before, entries);
      }
      OpenKeeps(was, before, entries, waited, key);
    }

    /** The handle closes. Its entry is kept only for what waits on it; without an entry nothing ever
        will be named by it. */
    method Close(key: Key, ts: i64)
      requires Valid()
      modifies this`entries, this`waiting, this`told, this`newest, this`timely
      ensures Valid() && newest == Max(old(newest), ts) && timely == (old(timely) && ts >= old(newest))
      ensures old(NamesTrue()) ==> NamesTrue()
      ensures key in old(entries) && key in old(waiting) ==>
                entries == old(entries)[key := old(entries)[key].(closed := Some(ts))] && waiting == old(waiting)
      ensures key in old(entries) && key !in old(waiting) ==>
                && key !in entries && (forall k | k in entries :: k in old(entries) && entries[k] == old(entries)[k])
                && forall k | k in old(entries) && old(entries)[k].closed == None && k != key :: k in entries
      ensures key !in old(entries) ==> key !in waiting && Orphaned(old(entries), entries, Waiters(old(waiting), key))
    {
      hide Orphaned, Truthful, Remembers, Dated, Ranked, Keys.Structured;
      ghost var was := entries;
      timely, newest := timely && ts >= newest, Max(newest, ts);
      Retell();
      CloseNamed(key, ts);
      TrueNames();
      TimesStay(was, entries, held);
    }

    method CloseNamed(key: Key, ts: i64)
      requires Structured()
      modifies this`entries, this`waiting
      ensures Structured()
      ensures key in old(entries) && key in old(waiting) ==>
                entries == old(entries)[key := old(entries)[key].(closed := Some(ts))] && waiting == old(waiting)
      ensures key in old(entries) && key !in old(waiting) ==>
                && key !in entries && (forall k | k in entries :: k in old(entries) && entries[k] == old(entries)[k])
                && forall k | k in old(entries) && old(entries)[k].closed == None && k != key :: k in entries
      ensures key !in old(entries) ==> key !in waiting && Orphaned(old(entries), entries, Waiters(old(waiting), key))
      ensures forall k | k in entries :: k in old(entries) && entries[k].since == old(entries)[k].since
    {
      hide Sound, Clocked, Orphaned, Carried;
      ghost var was := entries;
      if key in waiting {
        if key in entries {
          Entomb(Now(), key, ts);
          SameKeys(entries, key, entries[key].(closed := Some(ts)), clock);
          entries := entries[key := entries[key].(closed := Some(ts))];
        } else {
          OrphanChildren(key);
          AfterOrphans(was, entries, Waiters(old(waiting), key), clock, key);
          Gone(Now(), key);
        }
      } else if key in entries {
        NoneLoose(entries, born, key);
        Remove(key, {}, {}, {});
        assert {} - {key} == {};
        FewerEntries(was, entries, clock);
      } else {
        OrphanChildren(key);
        AfterOrphans(was, entries, Waiters(old(waiting), key), clock, key);
        Gone(Now(), key);
      }
    }

    /** The name of a handle. It is whole exactly when the handle's own entry is named; otherwise it is
        what is known below the first base that is not. */
    method Resolve(key: Key) returns (r: Option<Resolved>)
      requires Valid()
      modifies this`entries, this`clock
      ensures Valid() && SameNames(old(entries), entries)
      // It counts as the one used last.
      ensures key in entries ==> IsNewest(entries, key)
      ensures forall k | k in entries && k != key :: entries[k] == old(entries)[k]
      ensures r == None <==> key !in old(entries)
      ensures r.Some? && r.value.Whole? <==> IsNamed(old(entries), key)
      ensures IsNamed(old(entries), key) ==> r == Some(Whole(old(entries)[key].name.path))
      ensures IsNamed(old(entries), key) && NamesTrue() ==> key in truth && r.value == Whole(truth[key])
      ensures r.Some? && r.value.Partial? ==> exists rels :: KnownBy(old(entries), key, rels, r.value)
    {
      hide Sound, Clocked, Chain, KnownBy, SameNames, Truthful, Remembers, Dated, IsNewest;
      ghost var was := entries;
      clock := clock + 1;
      Touch(Now(), key, clock);
      TouchNewest(was, key, clock);
      if key !in entries { return None; }
      entries := entries[key := entries[key].(touched := clock)];
      SameTruth(was, entries, truth);
      TimesSame(was, entries, held);
      var rels: seq<string>, at, depth := [], key, 0;
      NoSteps(was, key);
      while depth < MAX_DEPTH
        invariant depth == |rels| <= MAX_DEPTH && Chain(was, key, rels, at)
        invariant at in was && (rels == [] ==> at == key)
        invariant rels != [] ==> !IsNamed(was, at) && !IsNamed(was, key)
        modifies {}
      {
        StepsSame(was, entries, at);
        match entries[at].name
        case Full(path) =>
          // A named base has no children waiting: `at` is the handle itself.
          return Some(Whole(path));
        case Below(base, rel) =>
          OneStep(was, key, rels, at, base, rel);
          BaseNotNamed(Now(), at);
          StepsSame(was, entries, base);
          rels := rels + [rel];
          if base !in entries {
            Known(was, key, rels, base);
            return Some(Partial(Joined(rels), base));
          }
          at, depth := base, depth + 1;
        case Orphan(rel) =>
          KnownOrphan(was, key, rels, at, rel);
          return Some(Partial(Joined(rels + [rel]), at));
      }
      // An absurd depth: what is known.
      Known(was, key, rels, at);
      r := Some(Partial(Joined(rels), at));
    }
  }

  /** These lost their base, and nothing else changed. */
  ghost predicate Orphaned(was: map<Key, Entry>, now: map<Key, Entry>, orphans: set<Key>) {
    && now.Keys == was.Keys
    && forall k | k in was ::
         now[k] == if k in orphans && was[k].name.Below? then was[k].(name := Orphan(was[k].name.rel)) else was[k]
  }

  lemma NoneOrphaned(entries: map<Key, Entry>)
    ensures forall none: set<Key> | none == {} :: Orphaned(entries, entries, none)
  {
  }

  lemma OneOrphaned(was: map<Key, Entry>, now: map<Key, Entry>, orphans: set<Key>, child: Key)
    requires Orphaned(was, now, orphans) && child in now && now[child].name.Below?
    ensures Orphaned(was, Renamed(now, child, Orphan(now[child].name.rel)), orphans + {child})
  {
  }

  ghost function Elements(stack: seq<Key>): set<Key> {
    set k | k in stack
  }

  lemma Pushed(stack: seq<Key>, key: Key)
    ensures Elements(stack + [key]) == Elements(stack) + {key}
  {
  }

  lemma NextToName(s: State, stack: seq<Key>, base: Key)
    requires Sound(s, {}, {}, Elements(stack + [base]))
    ensures Sound(s, {}, {}, Elements(stack) + {base})
    ensures !(base in s.entries && s.entries[base].name.Full?) ==> Sound(s, {}, {}, Elements(stack))
  {
    Pushed(stack, base);
  }

  lemma Fit(s: State, loose: set<Key>, stack: seq<Key>, base: Key)
    requires Sound(s, loose, {} + {base}, Elements(stack) + {base} - {base})
    ensures Sound(s, loose, {base}, Elements(stack))
  {
  }

  lemma OneNamed(entries: map<Key, Entry>, key: Key, name: Name)
    requires key in entries && entries[key].name.Below? && !name.Below?
    ensures |Belows(Renamed(entries, key, name))| + 1 == |Belows(entries)|
    ensures (name.Full? ==> NoneLost(entries, Renamed(entries, key, name)))
  {
    assert Belows(entries) == Belows(Renamed(entries, key, name)) + {key};
  }

  lemma FewerCarried(was: map<Key, Entry>, before: map<Key, Entry>, now: map<Key, Entry>)
    requires Carried(was, before) && Fewer(before, now)
    ensures Carried(was, now) && |Belows(now)| <= |Belows(before)| && NoneLost(before, now)
  {
    assert Belows(before) == Belows(now) + (Belows(before) - Belows(now));
    assert forall k | k in now :: k in before && k in was;
  }

  /** After a key was unlinked its entry can be set. */
  lemma Unlinked(was: map<Key, Entry>, now: map<Key, Entry>, waited: map<Key, set<Key>>, waiting: map<Key, set<Key>>,
                 clock: nat, key: Key, e: Entry, names: map<Key, string>)
    requires Fewer(was, now) && Narrowed(waited, waiting) && Needless(was, now, waiting) && Clocked(was, clock)
    requires Fits(was, key, e.name, names) && !e.name.Orphan? && e.closed == None && e.touched == clock + 1
    ensures key in waiting ==> key in waited
    ensures e.name.Below? && !IsNamed(was, e.name.base) ==> !IsNamed(now, e.name.base)
    ensures Fits(now, key, e.name, names) && Replaced(was, now[key := e], waiting, clock + 1, key)
  {
    hide Fewer, Narrowed, Needless, Clocked, Fits, OthersKept, IsNewest, IsNamed;
    FewerThen(was, now, waited, waiting, key, e.name, names);
    NewestThen(was, now, clock, key, e);
    OthersThen(was, now, waiting, key, e);
  }

  lemma FewerThen(was: map<Key, Entry>, now: map<Key, Entry>, waited: map<Key, set<Key>>, waiting: map<Key, set<Key>>,
                  key: Key, name: Name, names: map<Key, string>)
    requires Fewer(was, now) && Narrowed(waited, waiting) && Fits(was, key, name, names)
    ensures key in waiting ==> key in waited
    ensures name.Below? && !IsNamed(was, name.base) ==> !IsNamed(now, name.base)
    ensures Fits(now, key, name, names)
  {
    hide TrueName;
  }

  lemma NewestThen(was: map<Key, Entry>, now: map<Key, Entry>, clock: nat, key: Key, e: Entry)
    requires Fewer(was, now) && Clocked(was, clock) && e.touched == clock + 1
    ensures Clocked(now[key := e], clock + 1) && IsNewest(now[key := e], key) && |now[key := e]| <= |was| + 1
  {
    assert now[key := e].Keys <= was.Keys + {key};
    SubsetSize(now[key := e].Keys, was.Keys + {key});
  }

  lemma OthersThen(was: map<Key, Entry>, now: map<Key, Entry>, waiting: map<Key, set<Key>>, key: Key, e: Entry)
    requires Fewer(was, now) && Needless(was, now, waiting) && !e.name.Orphan? && e.closed == None
    ensures OthersKept(was, now[key := e], key) && Needless(was, now[key := e], waiting)
  {
  }

  /** The key's entry is new; of the others only needless tombstones went. */
  ghost predicate Replaced(was: map<Key, Entry>, now: map<Key, Entry>, waiting: map<Key, set<Key>>, clock: nat,
                           key: Key) {
    && Clocked(now, clock) && IsNewest(now, key) && |now| <= |was| + 1
    && OthersKept(was, now, key) && Needless(was, now, waiting)
  }

  ghost predicate OthersKept(was: map<Key, Entry>, now: map<Key, Entry>, key: Key) {
    NamesKept(was, now, key) && NoneLost(was, now) && LiveStay(was, now)
  }

  lemma NoneLoose(entries: map<Key, Entry>, born: map<Key, nat>, key: Key)
    ensures Later(entries, born, {}, key)
  {
  }

  lemma NewestIs(with: map<Key, Entry>, now: map<Key, Entry>, clock: nat, key: Key, e: Entry)
    requires Carried(with, now) && Clocked(with, clock) && IsNewest(with, key) && with[key] == e && e.closed == None
    requires e.name.Below? ==> now == with
    ensures Clocked(now, clock) && IsNewest(now, key) && now[key] == e && |now| <= |with|
  {
    SubsetSize(now.Keys, with.Keys);
  }

  lemma KeptBy(was: map<Key, Entry>, with: map<Key, Entry>, now: map<Key, Entry>, key: Key)
    requires NamesKept(was, with, key) && Carried(with, now)
    ensures NamesKept(was, now, key)
  {
    assert forall k | k in now :: k in with;
  }

  lemma KeptStill(was: map<Key, Entry>, before: map<Key, Entry>, now: map<Key, Entry>, key: Key)
    requires NamesKept(was, before, key) && NamesKept(before, now, key)
    ensures NamesKept(was, now, key)
  {
    assert forall k | k in now && k != key :: k in before;
  }

  lemma FewerEntries(was: map<Key, Entry>, now: map<Key, Entry>, clock: nat)
    requires forall k | k in now :: k in was && now[k] == was[k]
    ensures |now| <= |was| && NoneLost(was, now) && (Clocked(was, clock) ==> Clocked(now, clock))
              && forall key :: NamesKept(was, now, key)
  {
    SubsetSize(now.Keys, was.Keys);
  }

  /** Of the handles open before, at most a batch went, and those touched for longest. */
  ghost predicate OldestGone(was: map<Key, Entry>, now: map<Key, Entry>, key: Key) {
    exists gone: seq<Key> :: |gone| <= BatchSize(|was| + 1) && Went(was, now, key, gone)
  }

  ghost predicate Went(was: map<Key, Entry>, now: map<Key, Entry>, key: Key, gone: seq<Key>) {
    && (forall k | k in was && k != key && was[k].closed == None :: k in now <==> k !in gone)
    && (forall k, j | k in gone && k in was && j in now && j in was && k != key && j != key ::
          was[k].touched <= was[j].touched)
  }

  lemma OrphansOldest(was: map<Key, Entry>, before: map<Key, Entry>, now: map<Key, Entry>, waited: set<Key>, key: Key)
    requires Orphaned(was, before, waited) && OldestGone(before, now, key)
    ensures OldestGone(was, now, key)
  {
    assert before.Keys == was.Keys && |before.Keys| == |was.Keys|;
    var gone :| |gone| <= BatchSize(|before| + 1) && Went(before, now, key, gone);
    assert Went(was, now, key, gone);
  }

  lemma NoneWent(was: map<Key, Entry>, now: map<Key, Entry>, key: Key)
    requires LiveStay(was, now)
    ensures OldestGone(was, now, key)
  {
    assert Went(was, now, key, []);
  }

  lemma OldestWent(was: map<Key, Entry>, before: map<Key, Entry>, now: map<Key, Entry>, key: Key, gone: seq<Key>)
    requires NamesKept(was, before, key) && LiveStay(was, before) && |before| <= |was| + 1
    requires OldestOf(before, gone) && |gone| == BatchSize(|before|)
    requires (forall k | k in now :: k in before && now[k] == before[k]) && forall v | v in gone :: v !in now
    requires forall k | k in before && before[k].closed == None :: k in now <==> k !in gone
    ensures OldestGone(was, now, key)
  {
    assert Went(was, now, key, gone);
  }

  lemma StaysNewest(before: map<Key, Entry>, now: map<Key, Entry>, key: Key)
    requires IsNewest(before, key) && forall k | k in now :: k in before && now[k] == before[k]
    ensures key in now ==> IsNewest(now, key)
  {
  }

  /** The newest of several entries is not among the oldest eighth. */
  lemma NewestStays(entries: map<Key, Entry>, victims: seq<Key>, newest: Key)
    requires |entries| >= 2 && IsNewest(entries, newest) && |victims| < |entries| && OldestOf(entries, victims)
    ensures newest !in victims && newest in entries
  {
    var chosen := set k | k in victims;
    ChosenSize(victims, chosen);
    if forall k | k in entries :: k in victims {
      SubsetSize(entries.Keys, chosen);
    }
  }

  lemma {:induction false} ChosenSize(victims: seq<Key>, chosen: set<Key>)
    requires chosen == set k | k in victims
    ensures |chosen| <= |victims|
  {
    if victims != [] {
      var others := set k | k in victims[1..];
      ChosenSize(victims[1..], others);
      assert chosen == others + {victims[0]};
    }
  }

  /** Whole batches of the least recently used. */
  ghost predicate OldestOf(entries: map<Key, Entry>, victims: seq<Key>) {
    && (forall v | v in victims :: v in entries)
    && (forall i, j | 0 <= i < j < |victims| :: victims[i] != victims[j])
    && (forall v, k | v in victims && k in entries && k !in victims :: entries[v].touched <= entries[k].touched)
  }

  function BatchSize(len: nat): nat {
    if len / 8 == 0 then 1 else len / 8
  }

  /** A batch of the entries not touched for longest. */
  method Oldest(entries: map<Key, Entry>) returns (victims: seq<Key>)
    requires |entries| >= 1
    ensures |victims| == BatchSize(|entries|) && OldestOf(entries, victims)
    ensures if |entries| < 8 then |victims| == 1 else 8 * |victims| <= |entries| < 8 * |victims| + 8
  {
    var rest := entries.Keys;
    victims := [];
    while |victims| < BatchSize(|entries|)
      invariant |victims| <= BatchSize(|entries|) <= |entries| && |rest| + |victims| == |entries|
      invariant rest <= entries.Keys && (forall k | k in entries :: k in rest <==> k !in victims)
      invariant forall v | v in victims :: v in entries
      invariant forall i, j | 0 <= i < j < |victims| :: victims[i] != victims[j]
      invariant forall v, k | v in victims && k in rest :: entries[v].touched <= entries[k].touched
    {
      var least := Least(entries, rest);
      victims := victims + [least];
      rest := rest - {least};
    }
  }

  method Least(entries: map<Key, Entry>, among: set<Key>) returns (least: Key)
    requires among != {} && among <= entries.Keys
    ensures least in among && forall k | k in among :: entries[least].touched <= entries[k].touched
  {
    least :| least in among;
    var rest := among - {least};
    while rest != {}
      invariant rest <= among && least in among
      invariant forall k | k in among - rest :: entries[least].touched <= entries[k].touched
      decreases |rest|
    {
      var k :| k in rest;
      if entries[k].touched < entries[least].touched { least := k; }
      rest := rest - {k};
    }
  }

  lemma Alone(s: State, key: Key)
    requires Sound(s, {}, {}, {})
    ensures AllWaitOn(s.entries, Waiters(s.waiting, key), key)
              && forall c | WaitsOn(s.entries, c, key) :: c in Waiters(s.waiting, key)
  {
  }

  lemma AfterOrphans(was: map<Key, Entry>, now: map<Key, Entry>, waited: set<Key>, clock: nat, base: Key)
    requires Orphaned(was, now, waited) && Clocked(was, clock)
    ensures Clocked(now, clock) && now.Keys == was.Keys && |now| == |was| && IsNamed(now, base) == IsNamed(was, base)
    ensures IsNamed(now, base) ==> now[base].name == was[base].name
    ensures forall key :: NamesKept(was, now, key)
    ensures forall k | k in now :: k in was && now[k].since == was[k].since
  {
    assert |now.Keys| == |was.Keys|;
  }

  lemma SameTruth(was: map<Key, Entry>, now: map<Key, Entry>, truth: map<Key, string>)
    requires SameNames(was, now)
    ensures Truthful(was, truth) <==> Truthful(now, truth)
    ensures Truthful(was, truth) ==> forall k | IsNamed(was, k) :: k in truth && truth[k] == was[k].name.path
  {
    assert forall k | k in was :: TrueName(k, was[k].name, truth) == TrueName(k, now[k].name, truth);
  }

  // Truth and time.

  /** What an address held since a time. */
  datatype Held = Held(since: i64, path: string)

  ghost function LastBy(hs: seq<Held>, t: i64): Option<string> {
    if hs == [] then None
    else if hs[|hs| - 1].since <= t then Some(hs[|hs| - 1].path)
    else LastBy(hs[..|hs| - 1], t)
  }

  /** The name of the object an address held at a time. */
  ghost function HeldAt(held: map<Key, seq<Held>>, key: Key, t: i64): Option<string> {
    if key in held then LastBy(held[key], t) else None
  }

  /** The names known to be true are those of the objects held last. */
  ghost predicate Remembers(held: map<Key, seq<Held>>, truth: map<Key, string>) {
    && truth.Keys == held.Keys
    && forall k | k in held :: held[k] != [] && held[k][|held[k]| - 1].path == truth[k]
  }

  /** The last object the address held was opened by then. */
  ghost predicate LastBefore(held: map<Key, seq<Held>>, key: Key, t: i64) {
    key in held && held[key] != [] ==> held[key][|held[key]| - 1].since <= t
  }

  /** No entry is older than the object at its address. */
  ghost predicate Dated(entries: map<Key, Entry>, held: map<Key, seq<Held>>) {
    forall k | k in entries :: LastBefore(held, k, entries[k].since)
  }

  /** The map takes the seed: it has no newer entry. */
  predicate Accepts(entries: map<Key, Entry>, key: Key, taken: i64) {
    key in entries ==> entries[key].since <= taken
  }

  /** A seed that does no harm. The map does not take it, or takes it for a later object; or it gives the
      name of the object that the address held at `taken`, and the map knows the address or no other
      object was opened there since. */
  ghost predicate SeedFits(entries: map<Key, Entry>, held: map<Key, seq<Held>>, key: Key, full: string, taken: i64) {
    || !Accepts(entries, key, taken) || ClosedBy(entries, key, taken)
    || (HeldAt(held, key, taken) == Some(full) && (key in entries || LastBefore(held, key, taken)))
  }

  /** Such a seed, if it is taken, gives the name of the object that is at the address now. */
  lemma FitsPresent(entries: map<Key, Entry>, held: map<Key, seq<Held>>, truth: map<Key, string>, key: Key,
                    full: string, taken: i64)
    requires Accepts(entries, key, taken) && SeedFits(entries, held, key, full, taken)
    requires !ClosedBy(entries, key, taken) && Remembers(held, truth) && Dated(entries, held)
    ensures key in truth && truth[key] == full && LastBefore(held, key, taken)
  {
    assert key in entries ==> LastBefore(held, key, entries[key].since);
  }

  /** Whether names stay true by every seed, of whatever map, that the map takes for an object still there
      and that was right when taken: by whether the map has an entry for the address, and when the last
      open of the address was that it processed. */
  ghost predicate SeedsKeep(known: bool, last: i64, taken: i64) {
    forall entries: map<Key, Entry>, held: map<Key, seq<Held>>, truth: map<Key, string>, key: Key, full: string |
      RightSeed(entries, held, truth, key, full, last, taken) && (key in entries <==> known) ::
      key in truth && truth[key] == full
  }

  ghost predicate RightSeed(entries: map<Key, Entry>, held: map<Key, seq<Held>>, truth: map<Key, string>, key: Key,
                            full: string, last: i64, taken: i64) {
    && Truthful(entries, truth) && Remembers(held, truth) && Dated(entries, held)
    && Accepts(entries, key, taken) && !ClosedBy(entries, key, taken) && HeldAt(held, key, taken) == Some(full)
    && held[key][|held[key]| - 1].since == last
  }

  /** They do exactly if the map knows the address or nothing was opened there since the seed was taken.
      No bound on how late the seed comes. */
  lemma SeedsKeepIff(known: bool, last: i64, taken: i64)
    ensures SeedsKeep(known, last, taken) <==> known || last <= taken
  {
    if known || last <= taken {
      forall entries: map<Key, Entry>, held: map<Key, seq<Held>>, truth: map<Key, string>, key: Key, full: string |
        RightSeed(entries, held, truth, key, full, last, taken) && (key in entries <==> known)
        ensures key in truth && truth[key] == full
      {
        FitsPresent(entries, held, truth, key, full, taken);
      }
    } else {
      var key := Key(1);
      var held := map[key := [Held(taken, "A"), Held(last, "B")]];
      TwoHeld(held[key], Held(taken, "A"), Held(last, "B"), taken);
      assert RightSeed(map[], held, map[key := "B"], key, "A", last, taken);
    }
  }

  /** Another object is at the address. */
  ghost function Since(held: map<Key, seq<Held>>, key: Key, t: i64, path: string): map<Key, seq<Held>> {
    held[key := (if key in held then held[key] else []) + [Held(t, path)]]
  }

  lemma SeenSince(held: map<Key, seq<Held>>, truth: map<Key, string>, key: Key, t: i64, path: string)
    ensures Remembers(held, truth) ==> Remembers(Since(held, key, t, path), truth[key := path])
    ensures LastBefore(Since(held, key, t, path), key, t)
  {
  }

  lemma SeedDated(was: map<Key, Entry>, now: map<Key, Entry>, held: map<Key, seq<Held>>, held': map<Key, seq<Held>>,
                  key: Key, full: string, taken: i64, cap: nat)
    requires Entered(was, now, key, Full(full), taken, cap) && |now| <= cap
    requires held' == held || held' == Since(held, key, taken, full)
    ensures Dated(was, held) && LastBefore(held', key, taken) ==> Dated(now, held')
  {
    NotEmpty(now, key);
    if Dated(was, held) && LastBefore(held', key, taken) {
      forall k | k in now
        ensures LastBefore(held', k, now[k].since)
      {
        assert k != key ==> LastBefore(held, k, was[k].since);
      }
    }
  }

  lemma EnteredName(was: map<Key, Entry>, now: map<Key, Entry>, key: Key, full: string, since: i64, cap: nat)
    requires Entered(was, now, key, Full(full), since, cap)
    ensures cap >= 1 ==> key in now && now[key] == Entry(Full(full), since, None, now[key].touched)
  {
    hide NamesKept, LiveStay;
  }

  /** The three rules for the name of what is opened. */
  lemma OpenedAs(was: map<Key, Entry>, now: map<Key, Entry>, key: Key, base: Key, relative: string, ts: i64, cap: nat)
    requires Entered(was, now, key, OpenName(was, base, relative), ts, cap)
    ensures cap >= 1 ==> key in now && now[key].since == ts && now[key].closed == None
    ensures cap >= 1 && StartsWithRegistry(relative) ==> now[key].name == Full(relative)
    ensures cap >= 1 && !StartsWithRegistry(relative) ==>
              now[key].name == if IsNamed(was, base) then Full(Join(was[base].name.path, relative))
                               else Below(base, relative)
  {
    hide NamesKept, LiveStay, StartsWithRegistry, Join;
  }

  lemma OpenDated(was: map<Key, Entry>, now: map<Key, Entry>, held: map<Key, seq<Held>>, truth: map<Key, string>,
                  key: Key, base: Key, relative: string, ts: i64, cap: nat)
    requires Entered(was, now, key, OpenName(was, base, relative), ts, cap) && |now| <= cap
    ensures Dated(was, held) ==> Dated(now, OpenHeld(held, truth, key, base, relative, ts))
  {
    hide OpenName, NowHeld;
    NotEmpty(now, key);
    var held' := OpenHeld(held, truth, key, base, relative, ts);
    assert LastBefore(held', key, ts);
    if Dated(was, held) {
      forall k | k in now
        ensures LastBefore(held', k, now[k].since)
      {
        assert k != key ==> LastBefore(held, k, was[k].since);
      }
    }
  }

  lemma TimesStay(was: map<Key, Entry>, now: map<Key, Entry>, held: map<Key, seq<Held>>)
    requires forall k | k in now :: k in was && now[k].since == was[k].since
    ensures Dated(was, held) ==> Dated(now, held)
  {
    hide LastBefore;
  }

  lemma TimesSame(was: map<Key, Entry>, now: map<Key, Entry>, held: map<Key, seq<Held>>)
    requires SameNames(was, now)
    ensures Dated(was, held) ==> Dated(now, held)
  {
    TimesStay(was, now, held);
  }

  /** The true names after an open; not known if the base's is not. */
  ghost function NowHeld(truth: map<Key, string>, key: Key, base: Key, relative: string): map<Key, string> {
    if StartsWithRegistry(relative) then truth[key := relative]
    else if base in truth then truth[key := Join(truth[base], relative)]
    else Without(truth, key)
  }

  ghost function OpenHeld(held: map<Key, seq<Held>>, truth: map<Key, string>, key: Key, base: Key, relative: string,
                          ts: i64): map<Key, seq<Held>> {
    var now := NowHeld(truth, key, base, relative);
    if key in now then Since(held, key, ts, now[key]) else Without(held, key)
  }

  lemma OpenRemembered(held: map<Key, seq<Held>>, truth: map<Key, string>, key: Key, base: Key, relative: string,
                       ts: i64)
    ensures Remembers(held, truth) ==>
              Remembers(OpenHeld(held, truth, key, base, relative, ts), NowHeld(truth, key, base, relative))
  {
  }

  lemma Retold(s: State, truth: map<Key, string>)
    requires Sound(s, {}, {}, {}) && Truthful(s.entries, truth)
    ensures Sound(s.(told := truth), {}, {}, {})
  {
    hide Indexed, NothingWaitsOnNamed, TombstonesNeeded, Ranked, Truthful;
  }

  lemma SoundNames(s: State)
    requires Sound(s, {}, {}, {})
    ensures Truthful(s.entries, s.told) && Ranked(s.entries, s.born)
  {
  }

  /** The name a handle gets when it is opened. */
  function OpenName(entries: map<Key, Entry>, base: Key, relative: string): Name {
    if StartsWithRegistry(relative) then Full(relative)
    else if IsNamed(entries, base) then Full(Join(entries[base].name.path, relative))
    else Below(base, relative)
  }

  /** The naming after an open; a base nobody named gets some name. */
  ghost function Told(told: map<Key, string>, key: Key, base: Key, relative: string): map<Key, string> {
    if StartsWithRegistry(relative) then told[key := relative]
    else if base in told then told[key := Join(told[base], relative)]
    else told[base := ""][key := Join("", relative)]
  }

  lemma ToldTruly(truth: map<Key, string>, key: Key, base: Key, relative: string)
    ensures StartsWithRegistry(relative) || base in truth ==>
              Told(truth, key, base, relative) == NowHeld(truth, key, base, relative)
  {
  }

  /** A new name for an address nothing waits for. */
  lemma NewNameFits(s: State, key: Key, name: Name, names: map<Key, string>)
    requires Sound(s, {}, {key}, {}) && key !in s.waiting && TrueName(key, name, names)
    requires forall k | k in s.told && k != key :: k in names && names[k] == s.told[k]
    ensures Fits(s.entries, key, name, names)
  {
    forall k | k in s.entries && k != key
      ensures TrueName(k, s.entries[k].name, names)
    {
      assert TrueName(k, s.entries[k].name, s.told);
      assert s.entries[k].name.Below? ==> k in Waiters(s.waiting, s.entries[k].name.base);
    }
  }

  lemma OpenFits(s: State, key: Key, base: Key, relative: string)
    requires Sound(s, {}, {key}, {}) && key !in s.waiting && (!StartsWithRegistry(relative) ==> base != key)
    ensures Fits(s.entries, key, OpenName(s.entries, base, relative), Told(s.told, key, base, relative))
  {
    hide Sound, Join, StartsWithRegistry, Fits;
    OpenTrue(s, key, base, relative);
    NewNameFits(s, key, OpenName(s.entries, base, relative), Told(s.told, key, base, relative));
  }

  lemma OpenTrue(s: State, key: Key, base: Key, relative: string)
    requires Sound(s, {}, {key}, {}) && (!StartsWithRegistry(relative) ==> base != key)
    ensures TrueName(key, OpenName(s.entries, base, relative), Told(s.told, key, base, relative))
  {
    hide Indexed, NothingWaitsOnNamed, TombstonesNeeded, Ranked, Join, StartsWithRegistry;
    assert base in s.entries ==> TrueName(base, s.entries[base].name, s.told);
  }

  /** The entry is set, and of the others known names stay; no open handle goes below the cap. */
  ghost predicate Entered(was: map<Key, Entry>, now: map<Key, Entry>, key: Key, name: Name, since: i64, cap: nat) {
    && (cap >= 1 ==> EntryIs(now, key, name, since))
    && NamesKept(was, now, key) && (|was| < cap ==> LiveStay(was, now))
  }

  ghost predicate ChildrenOrphaned(was: map<Key, Entry>, now: map<Key, Entry>, key: Key) {
    forall c | WaitsOn(was, c, key) && c in now && c != key :: now[c].name.Orphan?
  }

  ghost predicate ChildrenJoined(was: map<Key, Entry>, now: map<Key, Entry>, key: Key, full: string) {
    forall c | WaitsOn(was, c, key) && c in now && c != key :: now[c].name == Full(Join(full, was[c].name.rel))
  }

  ghost predicate EntryIs(entries: map<Key, Entry>, key: Key, name: Name, since: i64) {
    key in entries && entries[key].name == name && entries[key].since == since && entries[key].closed == None
  }

  /** A named tombstone would be needed by nobody, and is gone. */
  lemma NamedAreLive(was: map<Key, Entry>, born: map<Key, nat>, s: State, key: Key)
    requires Sound(s, {}, {}, {}) && NamesKept(was, s.entries, key)
    requires forall d | d in s.entries && Descends(was, born, d, key) :: s.entries[d].name.Full?
    ensures forall d | d in s.entries && Descends(was, born, d, key) :: was[d].closed == None
  {
    hide Indexed, Ranked, Truthful;
    forall d | d in s.entries && Descends(was, born, d, key)
      ensures was[d].closed == None
    {
      assert d != key && s.entries[d].closed == was[d].closed;
    }
  }

  lemma NotEmpty(entries: map<Key, Entry>, key: Key)
    ensures key in entries ==> |entries| >= 1
  {
    assert key in entries ==> key in entries.Keys;
  }

  /** The children of a seeded key get the joined names. */
  lemma ChildrenGiven(was: map<Key, Entry>, born: map<Key, nat>, told: map<Key, string>, now: map<Key, Entry>,
                      key: Key, full: string)
    requires Truthful(was, told) && Ranked(was, born) && Truthful(now, AllGiven(was, born, told, key, full))
    requires forall d | d in now && Descends(was, born, d, key) :: now[d].name.Full?
    ensures forall c | WaitsOn(was, c, key) && c in now && c != key :: now[c].name == Full(Join(full, was[c].name.rel))
  {
    forall c | WaitsOn(was, c, key) && c in now && c != key
      ensures now[c].name == Full(Join(full, was[c].name.rel))
    {
      assert TrueName(c, was[c].name, told);
      assert Descends(was, born, c, key) && TrueName(c, now[c].name, AllGiven(was, born, told, key, full));
    }
  }

  lemma WithoutNarrows(waiting: map<Key, set<Key>>, base: Key)
    ensures Narrowed(waiting, Without(waiting, base))
  {
  }

  lemma AllNamed(was: map<Key, Entry>, born: map<Key, nat>, s: State, key: Key)
    requires Sound(s, {}, {}, {}) && key in s.entries && s.entries[key].name.Full?
    requires NamesKept(was, s.entries, key) && NoneLost(was, s.entries)
    requires Needless(was, s.entries, s.waiting)
    ensures forall d | d in s.entries && Descends(was, born, d, key) :: s.entries[d].name.Full?
  {
    hide Ranked, Truthful, NamesKept, NoneLost, Needless, Descends, TombstonesNeeded;
    forall d | d in s.entries && Descends(was, born, d, key)
      ensures s.entries[d].name.Full?
    {
      DescendantNamed(was, born, s.entries, s.waiting, key, d);
    }
  }

  lemma OpenKeeps(was: map<Key, Entry>, before: map<Key, Entry>, now: map<Key, Entry>, waited: set<Key>, key: Key)
    requires Orphaned(was, before, waited) && NamesKept(before, now, key) && AllWaitOn(was, waited, key)
    ensures NamesKept(was, now, key) && forall k | k in waited && k in now && k != key :: now[k].name.Orphan?
  {
    forall k | k in waited && k in now && k != key
      ensures now[k].name.Orphan?
    {
      assert WaitsOn(was, k, key);
    }
  }

  lemma Widen(s: State, key: Key)
    requires Sound(s, {}, {}, {})
    ensures Sound(s, {}, {key}, {})
  {
  }

  lemma Entomb(s: State, key: Key, ts: i64)
    requires Sound(s, {}, {}, {}) && key in s.entries && key in s.waiting
    ensures Sound(s.(entries := s.entries[key := s.entries[key].(closed := Some(ts))]), {}, {}, {})
  {
    var entries := s.entries[key := s.entries[key].(closed := Some(ts))];
    assert forall c, b :: WaitsOn(entries, c, b) == WaitsOn(s.entries, c, b);
  }

  lemma SameKeys(entries: map<Key, Entry>, key: Key, e: Entry, clock: nat)
    requires key in entries && Clocked(entries, clock) && e.touched == entries[key].touched
    ensures |entries[key := e]| == |entries| && Clocked(entries[key := e], clock)
  {
    assert entries[key := e].Keys == entries.Keys;
  }

  lemma Gone(s: State, key: Key)
    requires Sound(s, {}, {key}, {}) && key !in s.entries
    ensures Sound(s, {}, {}, {})
  {
  }

  // Resolving.

  /** From `key` up to `to`, each entry is below the next; `rels` are the names below, deepest first. */
  ghost predicate Chain(entries: map<Key, Entry>, key: Key, rels: seq<string>, to: Key)
    decreases |rels|
  {
    if rels == [] then key == to
    else
      && key in entries && entries[key].name.Below? && entries[key].name.rel == rels[0]
      && Chain(entries, entries[key].name.base, rels[1..], to)
  }

  /** The relative names, outermost first. */
  function Joined(rels: seq<string>): string {
    if |rels| == 0 then "" else if |rels| == 1 then rels[0] else Joined(rels[1..]) + "\\" + rels[0]
  }

  /** What a partial name says: the chain up to its root, or up to an orphan and its own name. */
  ghost predicate KnownBy(entries: map<Key, Entry>, key: Key, rels: seq<string>, r: Resolved) {
    && r.Partial? && rels != [] && r.known == Joined(rels)
    && (|| (Chain(entries, key, rels, r.root) && (r.root in entries ==> |rels| == MAX_DEPTH))
        || (Chain(entries, key, rels[..|rels| - 1], r.root) && r.root in entries
            && entries[r.root].name == Orphan(rels[|rels| - 1])))
  }

  function Under(base: string, rels: seq<string>): string
    decreases |rels|
  {
    if rels == [] then base else Join(Under(base, rels[1..]), rels[0])
  }

  /** What is known below a root is the rest of the true name: naming the root names the handle. */
  lemma {:induction false} ChainIsTrue(entries: map<Key, Entry>, truth: map<Key, string>, key: Key, rels: seq<string>,
                                       to: Key)
    requires Truthful(entries, truth) && Chain(entries, key, rels, to) && rels != []
    ensures key in truth && to in truth && truth[key] == Under(truth[to], rels)
    decreases |rels|
  {
    assert TrueName(key, entries[key].name, truth);
    if |rels| > 1 {
      ChainIsTrue(entries, truth, entries[key].name.base, rels[1..], to);
    } else {
      assert rels[1..] == [];
    }
  }

  /** A name that something can come after. */
  ghost predicate Plain(name: string) {
    name != "" && name[|name| - 1] != '\\'
  }

  lemma JoinPlain(base: string, rel: string)
    requires Plain(rel)
    ensures Plain(Join(base, rel)) && (Plain(base) ==> Join(base, rel) == base + "\\" + rel)
  {
  }

  /** What is known, joined to the root's name, is the handle's name, if no part is empty or ends with a
      backslash. */
  lemma {:induction false} KnownCompletes(base: string, rels: seq<string>)
    requires rels != [] && forall r | r in rels :: Plain(r)
    ensures Plain(Joined(rels)) && Plain(Under(base, rels)) && Under(base, rels) == Join(base, Joined(rels))
    decreases |rels|
  {
    hide Join, Plain;
    assert rels[0] in rels;
    if |rels| > 1 {
      var rest := rels[1..];
      KnownCompletes(base, rest);
      JoinPlain(Under(base, rest), rels[0]);
      JoinPlain(Joined(rest), rels[0]);
      JoinMore(base, Joined(rest), rels[0]);
    } else {
      JoinPlain(base, rels[0]);
      assert rels[1..] == [];
    }
  }

  lemma JoinMore(base: string, a: string, b: string)
    requires Plain(a) && Plain(b)
    ensures Join(base, a + "\\" + b) == Join(Join(base, a), b)
  {
    hide Join, Plain;
    JoinPlain(base, a);
    JoinPlain(a, b);
    JoinPlain(Join(base, a), b);
    JoinOver(base, a, b);
  }

  lemma JoinOver(base: string, a: string, b: string)
    requires Plain(a)
    ensures Join(base, a + "\\" + b) == Join(base, a) + "\\" + b
  {
    var ab := a + "\\" + b;
    if base == "" || base[|base| - 1] != '\\' {
      assert base + "\\" + a + "\\" + b == base + "\\" + ab;
    } else {
      assert base + a + "\\" + b == base + ab;
    }
  }

  lemma {:induction false} OneStep(entries: map<Key, Entry>, key: Key, rels: seq<string>, at: Key, base: Key,
                                   rel: string)
    requires Chain(entries, key, rels, at) && at in entries && entries[at].name == Below(base, rel)
    ensures Chain(entries, key, rels + [rel], base) && (rels == [] ==> at == key)
    decreases |rels|
  {
    if rels == [] {
      assert ([rel])[1..] == [] && [] + [rel] == [rel];
    } else {
      assert (rels + [rel])[1..] == rels[1..] + [rel];
      OneStep(entries, entries[key].name.base, rels[1..], at, base, rel);
    }
  }

  lemma NoSteps(entries: map<Key, Entry>, key: Key)
    ensures Chain(entries, key, [], key)
  {
  }

  lemma Known(entries: map<Key, Entry>, key: Key, rels: seq<string>, root: Key)
    requires rels != [] && Chain(entries, key, rels, root) && (root in entries ==> |rels| == MAX_DEPTH)
    ensures exists rels' :: KnownBy(entries, key, rels', Partial(Joined(rels), root))
  {
    assert KnownBy(entries, key, rels, Partial(Joined(rels), root));
  }

  lemma KnownOrphan(entries: map<Key, Entry>, key: Key, rels: seq<string>, at: Key, rel: string)
    requires Chain(entries, key, rels, at) && at in entries && entries[at].name == Orphan(rel)
    ensures exists rels' :: KnownBy(entries, key, rels', Partial(Joined(rels + [rel]), at))
    ensures rels == [] ==> at == key
  {
    assert (rels + [rel])[..|rels|] == rels;
    assert KnownBy(entries, key, rels + [rel], Partial(Joined(rels + [rel]), at));
  }

  ghost predicate SameNames(was: map<Key, Entry>, now: map<Key, Entry>) {
    was.Keys == now.Keys && forall k | k in was :: now[k] == was[k].(touched := now[k].touched)
  }

  lemma Touch(s: State, key: Key, clock: nat)
    requires Sound(s, {}, {}, {}) && clock > 0 && Clocked(s.entries, clock - 1)
    ensures Clocked(s.entries, clock) && SameNames(s.entries, s.entries)
    ensures key in s.entries ==>
              var entries := s.entries[key := s.entries[key].(touched := clock)];
              Sound(s.(entries := entries), {}, {}, {}) && Clocked(entries, clock) && SameNames(s.entries, entries)
                  && |entries| == |s.entries|
  {
    if key in s.entries {
      var entries := s.entries[key := s.entries[key].(touched := clock)];
      assert entries.Keys == s.entries.Keys;
      assert forall c, b :: WaitsOn(entries, c, b) == WaitsOn(s.entries, c, b);
    }
  }

  lemma TouchNewest(entries: map<Key, Entry>, key: Key, clock: nat)
    requires clock > 0 && Clocked(entries, clock - 1)
    ensures key in entries ==> IsNewest(entries[key := entries[key].(touched := clock)], key)
  {
  }

  lemma StepsSame(was: map<Key, Entry>, now: map<Key, Entry>, at: Key)
    requires SameNames(was, now)
    ensures (at in was <==> at in now) && (at in was ==> now[at].name == was[at].name)
  {
  }

  /** What something waits on is not named. */
  lemma BaseNotNamed(s: State, key: Key)
    requires Sound(s, {}, {}, {}) && key in s.entries && s.entries[key].name.Below?
    ensures !IsNamed(s.entries, s.entries[key].name.base)
  {
    assert key in Waiters(s.waiting, s.entries[key].name.base);
  }

  /** A seed read before events that are processed after it: it names an object opened at the address
      later, and with it a child of the earlier one. */
  method EarlySeedMisnames() returns (m: Keys)
    ensures fresh(m) && m.Valid() && !m.timely && !m.NamesTrue()
    ensures Key(2) in m.entries && m.entries[Key(2)].name == Full("\\REGISTRY\\NEW\\x")
    ensures Key(2) in m.truth && m.truth[Key(2)] == "\\REGISTRY\\OLD\\x"
  {
    hide Keys.Structured, Remembers, Descends, Truthful, SeedFits, Dated, OldestGone, IsNewest;
    var key, child := Key(1), Key(2);
    m := new Keys(8, map[key := "\\REGISTRY\\OLD"]);
    m.Open(child, key, "x", 10);
    assert m.entries.Keys == {child} && WaitsOn(m.entries, child, key);
    assert m.truth[child] == Join("\\REGISTRY\\OLD", "x") == "\\REGISTRY\\OLD\\x";
    // Key 1 closes at 20 and is opened again at 30; the seeder reads it at 40, and is heard first.
    var ok, another := m.Seed(key, "\\REGISTRY\\NEW", 40);
    assert child in m.entries && m.entries[child].name == Full(Join("\\REGISTRY\\NEW", "x"));
    assert m.entries[child].name.path[10] == 'N';
    Misnamed(m.entries, m.truth, child);
  }

  function Other(key: Key, i: nat): Key {
    Key(key.address + 1 + i)
  }

  /** So many others were opened after `key`. */
  ghost predicate Crowded(entries: map<Key, Entry>, key: Key, n: nat) {
    && key in entries && entries[key].closed == None
    && forall j: nat | j < n :: IsLater(entries, key, Other(key, j))
  }

  ghost predicate IsLater(entries: map<Key, Entry>, key: Key, other: Key) {
    && key in entries && other in entries
    && entries[other].closed == None && entries[key].touched < entries[other].touched
  }

  lemma OneMore(was: map<Key, Entry>, now: map<Key, Entry>, key: Key, n: nat, name: Name, since: i64, cap: nat)
    requires Crowded(was, key, n) && cap >= 1 && Entered(was, now, Other(key, n), name, since, cap)
    requires IsNewest(now, Other(key, n)) && OldestGone(was, now, Other(key, n))
    ensures key in now ==> Crowded(now, key, n + 1)
  {
    var gone :| |gone| <= BatchSize(|was| + 1) && Went(was, now, Other(key, n), gone);
    if key in now {
      forall j: nat | j < n
        ensures IsLater(now, key, Other(key, j))
      {
        assert IsLater(was, key, Other(key, j));
      }
    }
  }

  lemma {:induction false} CrowdSize(entries: map<Key, Entry>, key: Key, n: nat) returns (crowd: set<Key>)
    requires Crowded(entries, key, n)
    ensures |crowd| == n + 1 && crowd <= entries.Keys && forall k | k in crowd :: k.address <= key.address + n
  {
    if n == 0 {
      crowd := {key};
    } else {
      var some := CrowdSize(entries, key, n - 1);
      assert IsLater(entries, key, Other(key, n - 1));
      crowd := some + {Other(key, n - 1)};
    }
  }

  lemma NoRoom(entries: map<Key, Entry>, key: Key, cap: nat)
    requires |entries| <= cap
    ensures !Crowded(entries, key, cap)
  {
    if Crowded(entries, key, cap) {
      var crowd := CrowdSize(entries, key, cap);
      SubsetSize(crowd, entries.Keys);
      assert false;
    }
  }

  /** Opens others until the entry is evicted. */
  method CrowdOut(m: Keys, key: Key, ts: i64)
    requires m.Valid() && m.timely && m.newest <= ts && m.cap >= 1 && Crowded(m.entries, key, 0)
    modifies m
    ensures m.Valid() && m.timely && key !in m.entries
    ensures key in old(m.truth) ==> key in m.truth && m.truth[key] == old(m.truth)[key]
    ensures forall t :: HeldAt(m.held, key, t) == HeldAt(old(m.held), key, t)
  {
    hide Keys.Valid, Crowded, Entered, OldestGone, IsNewest, ChildrenOrphaned, OpenHeld, NowHeld, OpenName, HeldAt;
    var i := 0;
    while i < m.cap
      invariant m.Valid() && m.timely && m.newest <= ts
      invariant i <= m.cap && (key in m.entries ==> Crowded(m.entries, key, i))
      invariant key in old(m.truth) ==> key in m.truth && m.truth[key] == old(m.truth)[key]
      invariant forall t :: HeldAt(m.held, key, t) == HeldAt(old(m.held), key, t)
    {
      ghost var was, held, truth := m.entries, m.held, m.truth;
      m.Open(Other(key, i), key, "\\REGISTRY\\X", ts);
      assert StartsWithRegistry("\\REGISTRY\\X");
      OthersHeld(held, truth, key, Other(key, i), "\\REGISTRY\\X", ts);
      if key in was {
        OneMore(was, m.entries, key, i, OpenName(was, key, "\\REGISTRY\\X"), ts, m.cap);
      } else {
        NotEntered(was, m.entries, key, Other(key, i), OpenName(was, key, "\\REGISTRY\\X"), ts, m.cap);
      }
      i := i + 1;
    }
    Roomless(m, key);
  }

  lemma NotEntered(was: map<Key, Entry>, now: map<Key, Entry>, key: Key, other: Key, name: Name, ts: i64, cap: nat)
    requires Entered(was, now, other, name, ts, cap) && key !in was && key != other
    ensures key !in now
  {
  }

  lemma Roomless(m: Keys, key: Key)
    requires m.Valid()
    ensures !Crowded(m.entries, key, m.cap)
  {
    hide Sound, Clocked, Aged, Crowded, Truthful, Remembers, Dated;
    NoRoom(m.entries, key, m.cap);
  }

  lemma OthersHeld(held: map<Key, seq<Held>>, truth: map<Key, string>, key: Key, other: Key, whole: string, ts: i64)
    requires key != other && StartsWithRegistry(whole)
    ensures key in truth ==>
              key in NowHeld(truth, other, key, whole) && NowHeld(truth, other, key, whole)[key] == truth[key]
    ensures forall t :: HeldAt(OpenHeld(held, truth, other, key, whole, ts), key, t) == HeldAt(held, key, t)
  {
    hide StartsWithRegistry, LastBy;
  }

  lemma TwoHeld(held: seq<Held>, before: Held, after: Held, t: i64)
    requires held == [before] + [after] && before.since <= t < after.since
    ensures LastBy(held, t) == Some(before.path)
  {
    assert held[..1] == [before];
  }

  method Reopened(cap: nat, key: Key, last: i64, taken: i64) returns (m: Keys)
    requires cap >= 1 && taken < last
    ensures fresh(m) && m.Valid() && m.cap == cap && m.timely && m.newest == last && Crowded(m.entries, key, 0)
    ensures HeldAt(m.held, key, taken) == Some("\\REGISTRY\\OLD")
    ensures key in m.truth && m.truth[key] == "\\REGISTRY\\NEW" && m.entries[key].since == last && m.NamesTrue()
  {
    hide Keys.Structured, Remembers, Truthful, Dated, OldestGone, IsNewest, LastBy;
    m := new Keys(cap, map[key := "\\REGISTRY\\OLD"]);
    assert m.held[key] == [Held(I64_MIN, "\\REGISTRY\\OLD")];
    m.Open(key, key, "\\REGISTRY\\NEW", last);
    assert StartsWithRegistry("\\REGISTRY\\NEW");
    assert m.held[key] == [Held(I64_MIN, "\\REGISTRY\\OLD")] + [Held(last, "\\REGISTRY\\NEW")];
    TwoHeld(m.held[key], Held(I64_MIN, "\\REGISTRY\\OLD"), Held(last, "\\REGISTRY\\NEW"), taken);
  }

  /** A seed right when it was taken, but late: its address was opened again at `last`, and that entry was
      evicted before the seed is heard. It names the earlier object in place of the one that is there. This
      for a map of any size, and all such times. */
  method LateSeedMisnames(cap: nat, last: i64, taken: i64) returns (m: Keys)
    requires cap >= 1 && taken < last
    ensures fresh(m) && m.Valid() && m.cap == cap && !m.timely && !m.NamesTrue()
    ensures HeldAt(m.held, Key(1), taken) == Some("\\REGISTRY\\OLD")
    ensures Key(1) in m.entries && m.entries[Key(1)].name == Full("\\REGISTRY\\OLD")
    ensures Key(1) in m.truth && m.truth[Key(1)] == "\\REGISTRY\\NEW"
  {
    hide Keys.Structured, Remembers, Descends, Truthful, Dated, LastBy, Crowded;
    var key := Key(1);
    m := Reopened(cap, key, last, taken);
    CrowdOut(m, key, last);
    var ok, another := m.Seed(key, "\\REGISTRY\\OLD", taken);
    assert m.truth[key][10] == 'N';
    Misnamed(m.entries, m.truth, key);
  }

  /** Why the newer entry wins: were the older seed taken, though right when it was taken, it would name the
      object opened since as the earlier one. For a map of any size, and all such times. */
  method OlderSeedLoses(cap: nat, last: i64, taken: i64) returns (m: Keys, ok: bool)
    requires cap >= 1 && taken < last
    ensures fresh(m) && !ok && HeldAt(m.held, Key(1), taken) == Some("\\REGISTRY\\OLD")
    ensures m.Structured() && !m.NamesTrue()
    ensures Key(1) in m.truth && m.truth[Key(1)] == "\\REGISTRY\\NEW"
    ensures Key(1) in m.entries && m.entries[Key(1)].name == Full("\\REGISTRY\\OLD")
  {
    hide Keys.Structured, Remembers, Descends, Truthful, Dated, LastBy, SeedFits;
    var key := Key(1);
    m := Reopened(cap, key, last, taken);
    ghost var another;
    ok, another := m.Seed(key, "\\REGISTRY\\OLD", taken);
    m.Retell();
    m.SeedPresent(key, "\\REGISTRY\\OLD", taken);
    assert m.truth[key][10] == 'N';
    Misnamed(m.entries, m.truth, key);
  }

  lemma Misnamed(entries: map<Key, Entry>, truth: map<Key, string>, key: Key)
    requires IsNamed(entries, key) && key in truth && truth[key] != entries[key].name.path
    ensures !Truthful(entries, truth)
  {
    assert !TrueName(key, entries[key].name, truth);
  }
}
