/** The callback's early key map: full registry names in arrival order, bounded by forgetting the
    oldest. A name it lacks can be had elsewhere, so what matters is that those it has are right. */
module EarlyKeys {
  import opened Collections
  import opened Registry

  datatype Name = Name(path: string, generation: nat)

  datatype Ordered = Ordered(key: Key, generation: nat)

  function Join(base: string, relative: string): (r: string)
    ensures relative == "" ==> r == base
    ensures relative != "" ==>
              |r| == |base| + 1 + |relative| && base <= r && r[|base|] == '\\' && r[|base| + 1..] == relative
  {
    if relative == "" then base else base + "\\" + relative
  }

  /** What a map with no bound would hold after an open: the name, or nothing if it is not known. */
  function Opened(truth: map<Key, string>, key: Key, base: Key, relative: string): map<Key, string> {
    if StartsWithRegistry(relative) then truth[key := relative]
    else if base in truth then truth[key := Join(truth[base], relative)]
    else Without(truth, key)
  }

  /** Every name is one the unbounded map has. */
  ghost predicate Agrees(names: map<Key, Name>, truth: map<Key, string>) {
    forall k | k in names :: k in truth && truth[k] == names[k].path
  }

  predicate Fresh(names: map<Key, Name>, o: Ordered) {
    o.key in names && names[o.key].generation == o.generation
  }

  /** Every name has its entry in the order. */
  ghost predicate Backed(names: map<Key, Name>, order: seq<Ordered>) {
    forall k | k in names :: Ordered(k, names[k].generation) in order
  }

  ghost predicate Ascending(order: seq<Ordered>) {
    forall i, j | 0 <= i < j < |order| :: order[i].generation < order[j].generation
  }

  ghost predicate Numbered(order: seq<Ordered>, generation: nat) {
    forall o | o in order :: 1 <= o.generation <= generation
  }

  /** The names younger than a generation. */
  function Above(names: map<Key, Name>, floor: nat): map<Key, Name> {
    map k | k in names && names[k].generation > floor :: names[k]
  }

  /** What is left is what is younger than something. */
  ghost predicate Newest(left: map<Key, Name>, all: map<Key, Name>) {
    exists floor: nat :: left == Above(all, floor)
  }

  /** The entries that are not stale. */
  function Live(names: map<Key, Name>, order: seq<Ordered>): (r: seq<Ordered>)
    ensures forall o :: o in r <==> o in order && Fresh(names, o)
  {
    if order == [] then [] else (if Fresh(names, order[0]) then [order[0]] else []) + Live(names, order[1..])
  }

  lemma {:induction false} LiveAscends(names: map<Key, Name>, order: seq<Ordered>)
    requires Ascending(order)
    ensures Ascending(Live(names, order))
  {
    if order != [] {
      LiveAscends(names, order[1..]);
      forall o | o in Live(names, order[1..])
        ensures order[0].generation < o.generation
      {
        var i :| 0 <= i < |order[1..]| && order[1..][i] == o;
      }
    }
  }

  lemma {:induction false} LiveSame(names: map<Key, Name>, names': map<Key, Name>, order: seq<Ordered>)
    requires forall o | o in order :: Fresh(names, o) == Fresh(names', o)
    ensures Live(names, order) == Live(names', order)
  {
    if order != [] {
      assert order[0] in order && forall o | o in order[1..] :: o in order;
      LiveSame(names, names', order[1..]);
    }
  }

  /** No name has two entries that are not stale. */
  lemma {:induction false} LiveFits(names: map<Key, Name>, order: seq<Ordered>)
    requires Ascending(order)
    ensures |Live(names, order)| <= |names|
    decreases |order|
  {
    if order != [] {
      var o := order[0];
      if Fresh(names, o) {
        var rest := Without(names, o.key);
        forall other | other in order[1..]
          ensures Fresh(names, other) == Fresh(rest, other)
        {
          var i :| 0 <= i < |order[1..]| && order[1..][i] == other;
          assert order[i + 1] == other;
        }
        LiveSame(names, rest, order[1..]);
        LiveFits(rest, order[1..]);
        assert names.Keys == rest.Keys + {o.key};
      } else {
        LiveFits(names, order[1..]);
      }
    }
  }

  /** Forgetting the front entry of the order. */
  lemma PopFront(names: map<Key, Name>, order: seq<Ordered>)
    requires Backed(names, order) && Ascending(order) && order != []
    ensures var o := order[0]; var names' := if Fresh(names, o) then Without(names, o.key) else names;
            Backed(names', order[1..]) && Ascending(order[1..]) && names' == Above(names, o.generation)
  {
    forall k | k in names
      ensures names[k].generation >= order[0].generation
      ensures (names[k].generation == order[0].generation ==> k == order[0].key)
      ensures names[k].generation > order[0].generation ==> Ordered(k, names[k].generation) in order[1..]
    {
      var i :| 0 <= i < |order| && order[i] == Ordered(k, names[k].generation);
      assert i > 0 ==> order[1..][i - 1] == order[i];
    }
  }

  lemma AllAbove(names: map<Key, Name>, order: seq<Ordered>, generation: nat)
    requires Backed(names, order) && Numbered(order, generation)
    ensures Above(names, 0) == names
  {
    forall k | k in names
      ensures names[k].generation > 0
    {
      assert Ordered(k, names[k].generation) in order;
    }
  }

  lemma AboveTwice(names: map<Key, Name>, a: nat, b: nat)
    requires a <= b
    ensures Above(Above(names, a), b) == Above(names, b)
  {
  }

  lemma NothingLeft(names: map<Key, Name>, order: seq<Ordered>, truth: map<Key, string>, generation: nat)
    requires Holds(names, order, truth, generation) && order == []
    ensures |names| == 0
  {
    assert names.Keys == {};
  }

  /** A new name at the end of the order. */
  lemma Added(names: map<Key, Name>, order: seq<Ordered>, truth: map<Key, string>, key: Key, path: string,
              generation: nat)
    requires Backed(names, order) && Ascending(order) && Agrees(names, truth) && Numbered(order, generation)
    ensures var names', order' := names[key := Name(path, generation + 1)], order + [Ordered(key, generation + 1)];
            && Backed(names', order') && Ascending(order') && Agrees(names', truth[key := path])
            && Numbered(order', generation + 1)
  {
    var order' := order + [Ordered(key, generation + 1)];
    assert order'[|order|] == Ordered(key, generation + 1);
    assert forall o | o in order :: o in order';
  }

  class KeyCache {
    var names: map<Key, Name>
    var order: seq<Ordered>
    var generation: nat
    const cap: nat
    /** What a map with no bound would hold. */
    ghost var truth: map<Key, string>

    ghost predicate Valid()
      reads this
    {
      && Agrees(names, truth) && Backed(names, order) && Ascending(order)
      && Numbered(order, generation)
      && |names| <= cap && |order| <= 2 * cap
    }

    constructor (cap: nat)
      ensures Valid() && this.cap == cap && names == map[] && truth == map[]
    {
      names, order, generation, this.cap, truth := map[], [], 0, cap, map[];
    }

    /** A successful open or create. Returns how many names were forgotten to make room: the oldest,
        and only as many as needed. */
    method Open(key: Key, base: Key, relative: string) returns (evicted: nat)
      requires Valid()
      modifies this
      ensures Valid() && truth == Opened(old(truth), key, base, relative)
      ensures !StartsWithRegistry(relative) && base !in old(names) ==> evicted == 0 && names == Without(old(names), key)
      ensures StartsWithRegistry(relative) || base in old(names) ==>
                var path := if StartsWithRegistry(relative) then relative else Join(old(names)[base].path, relative);
                var all := old(names)[key := Name(path, old(generation) + 1)];
                Newest(names, all) && evicted == |all| - |names| && (evicted > 0 ==> |names| == cap)
    {
      hide Ascending, Newest, Backed, Numbered, Without, StartsWithRegistry, Join;
      if StartsWithRegistry(relative) || base in names {
        var path := if StartsWithRegistry(relative) then relative else Join(names[base].path, relative);
        evicted := Add(key, path);
      } else {
        Removed(names, order, truth, key);
        StillAgrees(names, truth, key, base, relative);
        names := Without(names, key);
        evicted := 0;
        truth := Opened(truth, key, base, relative);
      }
    }

    method Add(key: Key, path: string) returns (evicted: nat)
      requires Valid()
      modifies this
      ensures Valid() && truth == old(truth)[key := path]
      ensures var all := old(names)[key := Name(path, old(generation) + 1)];
              Newest(names, all) && evicted == |all| - |names| && (evicted > 0 ==> |names| == cap)
    {
      hide Ascending, Newest, Backed, Numbered, Agrees, Live;
      Added(names, order, truth, key, path, generation);
      generation := generation + 1;
      names := names[key := Name(path, generation)];
      order := order + [Ordered(key, generation)];
      truth := truth[key := path];
      evicted := Trim();
    }

    method Close(key: Key)
      requires Valid()
      modifies this`names, this`truth
      ensures Valid() && names == Without(old(names), key) && truth == Without(old(truth), key)
    {
      hide Ascending, Numbered, Without;
      Removed(names, order, truth, key);
      names, truth := Without(names, key), Without(truth, key);
    }

    method Trim() returns (evicted: nat)
      requires Agrees(names, truth) && Backed(names, order) && Ascending(order) && Numbered(order, generation)
      modifies this`names, this`order
      ensures Valid() && Newest(names, old(names))
      ensures evicted == |old(names)| - |names| && (evicted > 0 ==> |names| == cap)
    {
      hide Ascending, Newest, Backed, Numbered, Agrees, Live;
      evicted := Evict();
      if |order| > 2 * cap {
        // Stale entries go.
        LiveKeeps(names, order, generation);
        order := Live(names, order);
      }
    }

    method Evict() returns (evicted: nat)
      requires Agrees(names, truth) && Backed(names, order) && Ascending(order) && Numbered(order, generation)
      modifies this`names, this`order
      ensures Agrees(names, truth) && Backed(names, order) && Ascending(order) && Numbered(order, generation)
      ensures Newest(names, old(names)) && |names| <= cap
      ensures evicted == |old(names)| - |names| && (evicted > 0 ==> |names| == cap)
    {
      hide Holds, Above, Popped, Fresh;
      evicted := 0;
      ghost var floor: nat := 0;
      AllAbove(names, order, generation);
      HoldsMeans(names, order, truth, generation);
      ghost var all := names;
      while |names| > cap
        invariant Holds(names, order, truth, generation)
        invariant names == Above(all, floor) && (order != [] ==> floor <= order[0].generation)
        invariant evicted == |all| - |names| && (evicted > 0 ==> |names| >= cap)
        decreases |order|
      {
        if order == [] {
          NothingLeft(names, order, truth, generation);
          break;
        }
        FrontGoes(names, order, truth, generation, all, floor);
        PoppedIs(names, order[0]);
        var o := order[0];
        floor := o.generation;
        order := order[1..];
        if Fresh(names, o) {
          names := Without(names, o.key);
          evicted := evicted + 1;
        }
      }
      assert Newest(names, all);
      HoldsMeans(names, order, truth, generation);
    }
  }

  ghost predicate Holds(names: map<Key, Name>, order: seq<Ordered>, truth: map<Key, string>, generation: nat) {
    Agrees(names, truth) && Backed(names, order) && Ascending(order) && Numbered(order, generation)
  }

  lemma HoldsMeans(names: map<Key, Name>, order: seq<Ordered>, truth: map<Key, string>, generation: nat)
    ensures Holds(names, order, truth, generation) <==>
              Agrees(names, truth) && Backed(names, order) && Ascending(order) && Numbered(order, generation)
  {
  }

  function Popped(names: map<Key, Name>, o: Ordered): map<Key, Name> {
    if Fresh(names, o) then Without(names, o.key) else names
  }

  lemma PoppedIs(names: map<Key, Name>, o: Ordered)
    ensures Popped(names, o) == if Fresh(names, o) then Without(names, o.key) else names
    ensures |Popped(names, o)| == |names| - if Fresh(names, o) then 1 else 0
  {
    OneLess(names, o.key);
  }

  lemma FrontGoes(names: map<Key, Name>, order: seq<Ordered>, truth: map<Key, string>, generation: nat,
                  all: map<Key, Name>, floor: nat)
    requires Holds(names, order, truth, generation) && order != [] && names == Above(all, floor)
    requires floor <= order[0].generation
    ensures Holds(Popped(names, order[0]), order[1..], truth, generation)
    ensures Popped(names, order[0]) == Above(all, order[0].generation)
    ensures |order| > 1 ==> order[0].generation <= order[1].generation
  {
    hide Ascending, Backed, Numbered, Above, Without, Agrees;
    PopFront(names, order);
    AboveTwice(all, floor, order[0].generation);
    Rest(names, order, truth, generation);
  }

  lemma Rest(names: map<Key, Name>, order: seq<Ordered>, truth: map<Key, string>, generation: nat)
    requires Ascending(order) && Numbered(order, generation) && Agrees(names, truth) && order != []
    ensures Numbered(order[1..], generation) && Agrees(Without(names, order[0].key), truth)
    ensures |order| > 1 ==> order[0].generation <= order[1].generation
  {
  }

  lemma LiveKeeps(names: map<Key, Name>, order: seq<Ordered>, generation: nat)
    requires Backed(names, order) && Ascending(order) && Numbered(order, generation)
    ensures var live := Live(names, order);
            |live| <= |names| && Backed(names, live) && Ascending(live) && Numbered(live, generation)
  {
    LiveAscends(names, order);
    LiveFits(names, order);
  }

  lemma Removed(names: map<Key, Name>, order: seq<Ordered>, truth: map<Key, string>, key: Key)
    requires Backed(names, order) && Agrees(names, truth)
    ensures Backed(Without(names, key), order) && Agrees(Without(names, key), Without(truth, key))
    ensures |Without(names, key)| <= |names|
  {
    OneLess(names, key);
  }

  lemma StillAgrees(names: map<Key, Name>, truth: map<Key, string>, key: Key, base: Key, relative: string)
    requires Agrees(names, truth)
    ensures Agrees(Without(names, key), Opened(truth, key, base, relative))
  {
  }
}
