/** The index from server names and ports to addresses: an open hash table with linear
    probing.  A name is the bytes before its terminating NUL. */
module AddressTable {
  import opened Shared

  const HASH_TABLE_SIZE: nat := 1024

  type Name = seq<bv8>
  type CInt = bv32

  // ----- hash_code

  function Shifted(h: bv64, ch: bv8): bv64 {
    (h << 4) + ch as bv64
  }

  /** Bits 28 to 31 are folded into bits 4 to 7. */
  function Folded(h: bv64): bv64 {
    var g := h & 0xf000_0000;
    if g != 0 then (h ^ (g >> 24)) & !g else h
  }

  /** One round of the ELF hash, in 64 bits. */
  function Round(h: bv64, ch: bv8): bv64 {
    Folded(Shifted(h, ch))
  }

  function Rounds(h: bv64, server: Name): bv64 {
    if server == [] then h else Round(Rounds(h, server[..|server| - 1]), server[|server| - 1])
  }

  predicate Negative(port: CInt) {
    port & 0x8000_0000 != 0
  }

  /** An int as an unsigned long. */
  function Widened(port: CInt): bv64 {
    if Negative(port) then 0xffff_ffff_0000_0000 | port as bv64 else port as bv64
  }

  /** An unsigned long as an int: the low 32 bits. */
  function Narrowed(h: bv64): CInt {
    (h & 0xffff_ffff) as bv32
  }

  lemma RoundClears(h: bv64, ch: bv8)
    ensures Round(h, ch) & 0xf000_0000 == 0
  {
  }

  lemma SmallWord(h: bv64)
    requires h & 0xf000_0000 == 0
    ensures Narrowed(h) < 0x1000_0000 && !Negative(Narrowed(h))
  {
  }

  lemma SignKept(port: CInt)
    ensures Widened(port) & 0x8000_0000 != 0 <==> Negative(port)
  {
  }

  lemma Sign(h: bv64)
    ensures Negative(Narrowed(h)) <==> h & 0x8000_0000 != 0
  {
  }

  function HashCode(server: Name, port: CInt): CInt {
    Narrowed(Rounds(Widened(port), server))
  }

  /** Every round clears bits 28 to 31, so only the hash of the empty name can be
      negative. */
  lemma HashCodeSign(server: Name, port: CInt)
    ensures Negative(HashCode(server, port)) <==> server == [] && Negative(port)
    ensures server != [] ==> HashCode(server, port) < 0x1000_0000
  {
    var h := Rounds(Widened(port), server);
    if server == [] {
      SignKept(port);
      Sign(h);
    } else {
      RoundClears(Rounds(Widened(port), server[..|server| - 1]), server[|server| - 1]);
      SmallWord(h);
    }
  }

  lemma RoundsMore(h: bv64, server: Name, k: nat)
    requires k < |server|
    ensures Rounds(h, server[..k + 1]) == Round(Rounds(h, server[..k]), server[k])
  {
    var start := server[..k + 1];
    assert start[..|start| - 1] == server[..k] && start[|start| - 1] == server[k];
  }

  method Fold(h0: bv64) returns (h: bv64)
    ensures h == Folded(h0)
  {
    var g := h0 & 0xf000_0000;
    if g != 0 {
      h := (h0 ^ (g >> 24)) & !g;
    } else {
      h := h0;
    }
  }

  method HashRounds(h0: bv64, server: Name) returns (h: bv64)
    ensures h == Rounds(h0, server)
  {
    h := h0;
    for k := 0 to |server|
      invariant h == Rounds(h0, server[..k])
    {
      RoundsMore(h0, server, k);
      h := Fold(Shifted(h, server[k]));
    }
    assert server[..|server|] == server;
  }

  /** hash_code, round by round. */
  method ComputeHashCode(server: Name, port: CInt) returns (code: CInt)
    ensures code == HashCode(server, port)
  {
    var h := HashRounds(Widened(port), server);
    code := Narrowed(h);
  }

  // ----- the table

  /** sin stands for the socket address. */
  datatype HashEntry = HashEntry(hostname: Name, port: CInt, sin: int)

  predicate Matches(e: HashEntry, server: Name, port: CInt) {
    e.port == port && e.hostname == server
  }

  /** The slot the search for a name starts at. */
  function Home(server: Name, port: CInt): (index: nat)
    requires !Negative(HashCode(server, port))
    ensures index < HASH_TABLE_SIZE
  {
    IndexBelow(HashCode(server, port));
    (HashCode(server, port) % 1024) as nat
  }

  lemma IndexBelow(code: CInt)
    ensures (code % 1024) as int < 1024
  {
    RemainderBelow(code);
    IntBelow(code % 1024);
  }

  lemma RemainderBelow(code: CInt)
    ensures code % 1024 < 1024
  {
  }

  lemma IntBelow(x: bv32)
    requires x < 1024
    ensures x as int < 1024
  {
  }

  /** Steps from one slot to another, with wrap-around. */
  function Gap(from: nat, to: nat): int {
    if to >= from then to - from else to + HASH_TABLE_SIZE - from
  }

  function Next(index: nat): nat {
    if index + 1 >= HASH_TABLE_SIZE then 0 else index + 1
  }

  /** The address first entered for a name. */
  function FirstMatch(entered: seq<HashEntry>, server: Name, port: CInt): Option<int> {
    if entered == [] then None
    else if Matches(entered[0], server, port) then Some(entered[0].sin)
    else FirstMatch(entered[1..], server, port)
  }

  lemma {:induction false} FirstMatchAt(entered: seq<HashEntry>, server: Name, port: CInt, k: nat)
    requires k < |entered| && Matches(entered[k], server, port)
    requires forall j :: 0 <= j < k ==> !Matches(entered[j], server, port)
    ensures FirstMatch(entered, server, port) == Some(entered[k].sin)
  {
    if k > 0 {
      FirstMatchAt(entered[1..], server, port, k - 1);
    }
  }

  lemma {:induction false} NoMatch(entered: seq<HashEntry>, server: Name, port: CInt)
    requires forall j :: 0 <= j < |entered| ==> !Matches(entered[j], server, port)
    ensures FirstMatch(entered, server, port) == None
  {
    if entered != [] {
      NoMatch(entered[1..], server, port);
    }
  }

  /** slots[k] is where the k-th entry went: each slot holds one entry or none, and on
      the way from its home every entry met only earlier ones. */
  ghost predicate Laid(table: seq<Option<HashEntry>>, entered: seq<HashEntry>, slots: seq<nat>) {
    && |table| == HASH_TABLE_SIZE && |slots| == |entered|
    && (forall k :: 0 <= k < |slots| ==> slots[k] < HASH_TABLE_SIZE && table[slots[k]] == Some(entered[k]))
    && (forall j, k :: 0 <= j < k < |slots| ==> slots[j] != slots[k])
    && (forall i :: 0 <= i < HASH_TABLE_SIZE && table[i].Some? ==> i in slots)
    && (forall k :: 0 <= k < |entered| ==> !Negative(HashCode(entered[k].hostname, entered[k].port)))
    && (forall k :: 0 <= k < |slots| ==> OnlyEarlier(entered, slots, k))
  }

  ghost predicate OnlyEarlier(entered: seq<HashEntry>, slots: seq<nat>, k: nat)
    requires k < |slots| == |entered| && !Negative(HashCode(entered[k].hostname, entered[k].port))
  {
    var home := Home(entered[k].hostname, entered[k].port);
    forall i: nat :: i < HASH_TABLE_SIZE && Gap(home, i) < Gap(home, slots[k]) ==> i in slots[..k]
  }

  /** Fewer entries than slots leave a slot free. */
  lemma {:induction false} FreeSlot(slots: seq<nat>, n: nat) returns (i: nat)
    requires |slots| < n
    ensures i < n && i !in slots
    decreases n
  {
    i := n - 1;
    if i in slots {
      var p :| 0 <= p < |slots| && slots[p] == n - 1;
      var others := slots[..p] + slots[p + 1..];
      i := FreeSlot(others, n - 1);
      forall q | 0 <= q < |slots| ensures slots[q] != i {
        if q != p {
          assert slots[q] == others[if q < p then q else q - 1];
        }
      }
    }
  }

  /** A search that has met only other names so far. */
  ghost predicate Missed(table: seq<Option<HashEntry>>, home: nat, index: nat, server: Name, port: CInt)
    requires |table| == HASH_TABLE_SIZE
  {
    forall i: nat :: i < HASH_TABLE_SIZE && Gap(home, i) < Gap(home, index) ==>
      table[i].Some? && !Matches(table[i].value, server, port)
  }

  lemma MissOneMore(table: seq<Option<HashEntry>>, home: nat, index: nat, server: Name, port: CInt)
    requires |table| == HASH_TABLE_SIZE && home < HASH_TABLE_SIZE && index < HASH_TABLE_SIZE
    requires Missed(table, home, index, server, port)
    requires table[index].Some? && !Matches(table[index].value, server, port)
    ensures Next(index) != home ==> Missed(table, home, Next(index), server, port)
    ensures Next(index) == home ==>
              forall i: nat :: i < HASH_TABLE_SIZE ==> table[i].Some? && !Matches(table[i].value, server, port)
  {
    forall i: nat | i < HASH_TABLE_SIZE && (Next(index) == home || Gap(home, i) < Gap(home, Next(index)))
      ensures table[i].Some? && !Matches(table[i].value, server, port) {
      assert i == index || Gap(home, i) < Gap(home, index);
    }
  }

  /** The first entry of a name is met before any other entry of it. */
  lemma FoundFirst(table: seq<Option<HashEntry>>, entered: seq<HashEntry>, slots: seq<nat>, index: nat, server: Name, port: CInt)
    requires Laid(table, entered, slots) && !Negative(HashCode(server, port)) && index < HASH_TABLE_SIZE
    requires Missed(table, Home(server, port), index, server, port)
    requires table[index].Some? && Matches(table[index].value, server, port)
    ensures FirstMatch(entered, server, port) == Some(table[index].value.sin)
  {
    var k :| 0 <= k < |slots| && slots[k] == index;
    forall j | 0 <= j < k ensures !Matches(entered[j], server, port) {
      if Matches(entered[j], server, port) {
        EntryMet(table, entered, slots, j, k, server, port);
      }
    }
    FirstMatchAt(entered, server, port, k);
  }

  lemma OnWay(entered: seq<HashEntry>, slots: seq<nat>, k: nat, i: nat) returns (j: nat)
    requires k < |slots| == |entered| && !Negative(HashCode(entered[k].hostname, entered[k].port))
    requires OnlyEarlier(entered, slots, k) && i < HASH_TABLE_SIZE
    requires Gap(Home(entered[k].hostname, entered[k].port), i) < Gap(Home(entered[k].hostname, entered[k].port), slots[k])
    ensures j < k && slots[j] == i
  {
    assert i in slots[..k];
    j :| 0 <= j < k && slots[j] == i;
  }

  /** An entry lies on the way of every later entry of the same name. */
  lemma EntryMet(table: seq<Option<HashEntry>>, entered: seq<HashEntry>, slots: seq<nat>, j: nat, k: nat, server: Name, port: CInt)
    requires Laid(table, entered, slots) && j < k < |entered|
    requires Matches(entered[j], server, port) && Matches(entered[k], server, port)
    ensures !Negative(HashCode(server, port))
    ensures Gap(Home(server, port), slots[j]) < Gap(Home(server, port), slots[k])
  {
    var home := Home(server, port);
    forall i: nat | i < HASH_TABLE_SIZE && Gap(home, i) < Gap(home, slots[j]) ensures i != slots[k] {
      var m := OnWay(entered, slots, j, i);
    }
  }

  /** No entry of a name lies at or behind the first empty slot of its search. */
  lemma FoundNone(table: seq<Option<HashEntry>>, entered: seq<HashEntry>, slots: seq<nat>, index: nat, server: Name, port: CInt)
    requires Laid(table, entered, slots) && !Negative(HashCode(server, port)) && index < HASH_TABLE_SIZE
    requires Missed(table, Home(server, port), index, server, port) && table[index].None?
    ensures FirstMatch(entered, server, port) == None
  {
    var home := Home(server, port);
    forall k | 0 <= k < |entered| ensures !Matches(entered[k], server, port) {
      if Matches(entered[k], server, port) {
        forall i: nat | i < HASH_TABLE_SIZE && Gap(home, i) < Gap(home, slots[k]) ensures i != index {
          var m := OnWay(entered, slots, k, i);
        }
      }
    }
    NoMatch(entered, server, port);
  }

  /** A search all round a full table has met every entry. */
  lemma FoundNowhere(table: seq<Option<HashEntry>>, entered: seq<HashEntry>, slots: seq<nat>, server: Name, port: CInt)
    requires Laid(table, entered, slots)
    requires forall i: nat :: i < HASH_TABLE_SIZE ==> table[i].Some? && !Matches(table[i].value, server, port)
    ensures FirstMatch(entered, server, port) == None
  {
    forall k | 0 <= k < |entered| ensures !Matches(entered[k], server, port) {
      assert table[slots[k]] == Some(entered[k]);
    }
    NoMatch(entered, server, port);
  }

  /** An entry put into the first empty slot from its home. */
  lemma EntryLaid(table: seq<Option<HashEntry>>, entered: seq<HashEntry>, slots: seq<nat>, e: HashEntry, index: nat)
    requires Laid(table, entered, slots) && !Negative(HashCode(e.hostname, e.port))
    requires index < HASH_TABLE_SIZE && table[index].None?
    requires forall i: nat :: i < HASH_TABLE_SIZE && Gap(Home(e.hostname, e.port), i) < Gap(Home(e.hostname, e.port), index) ==> table[i].Some?
    ensures Laid(table[index := Some(e)], entered + [e], slots + [index])
  {
    var es, ss := entered + [e], slots + [index];
    forall k: nat | k < |ss| ensures OnlyEarlier(es, ss, k) {
      if k < |slots| {
        assert OnlyEarlier(entered, slots, k);
        assert ss[..k] == slots[..k];
      } else {
        assert ss[..k] == slots;
      }
    }
  }

  class HashTable {
    const entries: array<Option<HashEntry>>
    ghost var entered: seq<HashEntry>
    ghost var slots: seq<nat>

    ghost predicate Valid()
      reads this, entries
    {
      Laid(entries[..], entered, slots)
    }

    constructor ()
      ensures Valid() && entered == [] && fresh(entries)
    {
      entries := new Option<HashEntry>[HASH_TABLE_SIZE](_ => None);
      entered, slots := [], [];
    }

    /** The loop of hash_enter ends, since fewer entries than slots leave one free. */
    method EmptySlot(home: nat) returns (index: nat)
      requires Valid() && home < HASH_TABLE_SIZE && |entered| < HASH_TABLE_SIZE
      ensures index < HASH_TABLE_SIZE && entries[index].None?
      ensures forall i: nat :: i < HASH_TABLE_SIZE && Gap(home, i) < Gap(home, index) ==> entries[i].Some?
    {
      ghost var free := FreeSlot(slots, HASH_TABLE_SIZE);
      assert entries[..][free].None?;
      index := home;
      while entries[index].Some?
        invariant index < HASH_TABLE_SIZE && Gap(home, index) <= Gap(home, free)
        invariant forall i: nat :: i < HASH_TABLE_SIZE && Gap(home, i) < Gap(home, index) ==> entries[i].Some?
        decreases Gap(home, free) - Gap(home, index)
      {
        index := index + 1;
        if index >= HASH_TABLE_SIZE {
          index := 0;
        }
      }
    }

    method HashEnter(server: Name, port: CInt, sin: int)
      requires Valid() && |entered| < HASH_TABLE_SIZE && !Negative(HashCode(server, port))
      modifies this, entries
      ensures Valid() && entered == old(entered) + [HashEntry(server, port, sin)]
    {
      var code := ComputeHashCode(server, port);
      IndexBelow(code);
      var index := EmptySlot((code % 1024) as nat);
      var e := HashEntry(server, port, sin);
      EntryLaid(entries[..], entered, slots, e, index);
      ghost var table := entries[..][index := Some(e)];
      entries[index] := Some(e);
      assert entries[..] == table;
      entered, slots := entered + [e], slots + [index];
    }

    /** hash_lookup: the address entered first for this name, full table or not. */
    method HashLookup(server: Name, port: CInt) returns (sin: Option<int>)
      requires Valid() && !Negative(HashCode(server, port))
      ensures sin == FirstMatch(entered, server, port)
    {
      var code := ComputeHashCode(server, port);
      IndexBelow(code);
      var index, round := Search(server, port, (code % 1024) as nat);
      if round {
        FoundNowhere(entries[..], entered, slots, server, port);
        sin := None;
      } else if entries[index].Some? {
        FoundFirst(entries[..], entered, slots, index, server, port);
        sin := Some(entries[index].value.sin);
      } else {
        FoundNone(entries[..], entered, slots, index, server, port);
        sin := None;
      }
    }

    /** How a search ends: at an entry of the name, at an empty slot, or where it began. */
    method Search(server: Name, port: CInt, startIndex: nat) returns (index: nat, round: bool)
      requires Valid() && startIndex < HASH_TABLE_SIZE
      ensures index < HASH_TABLE_SIZE
      ensures round ==> forall i: nat :: i < HASH_TABLE_SIZE ==> entries[i].Some? && !Matches(entries[i].value, server, port)
      ensures !round ==> Missed(entries[..], startIndex, index, server, port)
      ensures !round && entries[index].Some? ==> Matches(entries[index].value, server, port)
    {
      index, round := startIndex, false;
      while entries[index].Some? && !Matches(entries[index].value, server, port)
        invariant index < HASH_TABLE_SIZE && Missed(entries[..], startIndex, index, server, port)
        decreases HASH_TABLE_SIZE - Gap(startIndex, index)
      {
        MissOneMore(entries[..], startIndex, index, server, port);
        index := index + 1;
        if index >= HASH_TABLE_SIZE {
          index := 0;
        }
        if index == startIndex {
          round := true;
          return;
        }
      }
    }
  }
}
