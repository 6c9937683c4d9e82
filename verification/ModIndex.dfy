/**
 The index of `kernel/modtools.h`: for every net, whether it is a module input or output and which cell pins are
 on it. It is kept up to date by notifications and must answer like one built from scratch.
 */
module ModIndexes {
  import opened Options
  import opened SigMaps

  datatype PortInfo = PortInfo(cell: nat, port: nat, offset: nat)
  datatype SigBitInfo = SigBitInfo(isInput: bool, isOutput: bool, ports: set<PortInfo>)

  /** The module: the bits of its input and output wires, the signals on its cell ports, its connections in order. */
  datatype Module = Module(inputs: set<SigBit>, outputs: set<SigBit>, cells: map<(nat, nat), seq<SigBit>>,
      conns: seq<(SigBit, SigBit)>)

  type Database = map<SigBit, SigBitInfo>
  const EMPTY := SigBitInfo(false, false, {})

  // ---------------------------------------------------------------- nets

  /** The representative of a bit after the connections have been made one after the other. */
  ghost function Net(conns: seq<(SigBit, SigBit)>, x: SigBit): SigBit {
    if conns == [] then x
    else
      var before, pair := conns[..|conns| - 1], conns[|conns| - 1];
      Joined(Net(before, pair.0), Net(before, pair.1), Net(before, x))
  }

  ghost function Nets(conns: seq<(SigBit, SigBit)>): SigBit -> SigBit {
    (x: SigBit) => Net(conns, x)
  }

  lemma NetsAt(conns: seq<(SigBit, SigBit)>, x: SigBit)
    ensures Nets(conns)(x) == Net(conns, x)
  {
  }

  lemma NetsMore(conns: seq<(SigBit, SigBit)>, a: SigBit, b: SigBit, x: SigBit)
    ensures Net(conns + [(a, b)], x) == Joined(Net(conns, a), Net(conns, b), Net(conns, x))
  {
    assert (conns + [(a, b)])[..|conns|] == conns;
  }

  /** Constants stand for themselves, and representatives too. */
  lemma {:induction false} NetFacts(conns: seq<(SigBit, SigBit)>, x: SigBit)
    ensures x.ConstBit? ==> Net(conns, x) == x
    ensures Net(conns, Net(conns, x)) == Net(conns, x)
  {
    if conns != [] {
      var before, pair := conns[..|conns| - 1], conns[|conns| - 1];
      NetFacts(before, x);
      NetFacts(before, pair.0);
      NetFacts(before, pair.1);
    }
  }

  /** The same nets, except that different constants may stand for one. */
  ghost predicate Alike(net: SigBit -> SigBit, net': SigBit -> SigBit) {
    forall x :: net(x) == net'(x) || (net(x).ConstBit? && net'(x).ConstBit?)
  }

  ghost predicate Settled(net: SigBit -> SigBit) {
    forall x :: net(net(x)) == net(x)
  }

  // ---------------------------------------------------------------- what the index must hold

  function EntryAt(db: Database, r: SigBit): SigBitInfo {
    if r in db then db[r] else EMPTY
  }

  /** Which bit every cell pin is on. */
  ghost predicate OnNet(pins: imap<PortInfo, SigBit>, net: SigBit -> SigBit, r: SigBit, pin: PortInfo) {
    pin in pins && net(pins[pin]) == r
  }

  ghost predicate AnyOn(bits: set<SigBit>, net: SigBit -> SigBit, r: SigBit) {
    exists b :: b in bits && net(b) == r
  }

  ghost predicate Right(info: SigBitInfo, pins: imap<PortInfo, SigBit>, ins: set<SigBit>, outs: set<SigBit>,
      net: SigBit -> SigBit, r: SigBit)
  {
    && (info.isInput <==> AnyOn(ins, net, r)) && (info.isOutput <==> AnyOn(outs, net, r))
    && forall pin :: pin in info.ports <==> OnNet(pins, net, r, pin)
  }

  /** The entries are those of the nets, up to entries that say nothing. */
  ghost predicate Indexed(db: Database, pins: imap<PortInfo, SigBit>, ins: set<SigBit>, outs: set<SigBit>,
      net: SigBit -> SigBit)
  {
    && (forall r :: r in db ==> r.WireBit? && net(r) == r)
    && (forall r: SigBit :: r.WireBit? ==> Right(EntryAt(db, r), pins, ins, outs, net, r))
  }

  // ---------------------------------------------------------------- pins come and go

  /** One pin is put on its net. */
  function AddPin(db: Database, r: SigBit, pin: PortInfo): Database {
    if r.WireBit? then
      var info := EntryAt(db, r);
      db[r := info.(ports := info.ports + {pin})]
    else db
  }

  function DelPin(db: Database, r: SigBit, pin: PortInfo): Database {
    if r.WireBit? then
      var info := EntryAt(db, r);
      db[r := info.(ports := info.ports - {pin})]
    else db
  }

  lemma PinAdded(db: Database, pins: imap<PortInfo, SigBit>, ins: set<SigBit>, outs: set<SigBit>,
      net: SigBit -> SigBit, bit: SigBit, pin: PortInfo)
    requires Indexed(db, pins, ins, outs, net) && Settled(net) && pin !in pins
    ensures Indexed(AddPin(db, net(bit), pin), pins[pin := bit], ins, outs, net)
  {
    var db', pins' := AddPin(db, net(bit), pin), pins[pin := bit];
    forall r: SigBit | r.WireBit? ensures Right(EntryAt(db', r), pins', ins, outs, net, r) {
      assert Right(EntryAt(db, r), pins, ins, outs, net, r);
      assert forall p :: OnNet(pins', net, r, p) <==> OnNet(pins, net, r, p) || (p == pin && net(bit) == r);
    }
  }

  lemma PinDeleted(db: Database, pins: imap<PortInfo, SigBit>, ins: set<SigBit>, outs: set<SigBit>,
      net: SigBit -> SigBit, pin: PortInfo)
    requires Indexed(db, pins, ins, outs, net) && Settled(net) && pin in pins
    ensures Indexed(DelPin(db, net(pins[pin]), pin), pins - {pin}, ins, outs, net)
  {
    var db', pins' := DelPin(db, net(pins[pin]), pin), pins - {pin};
    forall r: SigBit | r.WireBit? ensures Right(EntryAt(db', r), pins', ins, outs, net, r) {
      assert Right(EntryAt(db, r), pins, ins, outs, net, r);
      assert forall p :: OnNet(pins', net, r, p) <==> OnNet(pins, net, r, p) && p != pin;
    }
  }

  // ---------------------------------------------------------------- nets join

  function MergeInfo(x: SigBitInfo, y: SigBitInfo): SigBitInfo {
    SigBitInfo(x.isInput || y.isInput, x.isOutput || y.isOutput, x.ports + y.ports)
  }

  /** The entries of two nets become one, which is dropped if a constant stands for it. */
  function JoinEntries(db: Database, lhs: SigBit, rhs: SigBit, r: SigBit): Database {
    if lhs !in db && rhs !in db then db
    else
      var info := if rhs !in db then db[lhs] else if lhs !in db then db[rhs] else MergeInfo(db[lhs], db[rhs]);
      var rest := db - {lhs, rhs};
      if r.WireBit? then rest[r := info] else rest
  }

  ghost function JoinNets(net: SigBit -> SigBit, a: SigBit, b: SigBit): SigBit -> SigBit {
    (x: SigBit) => Joined(net(a), net(b), net(x))
  }

  /** The joined nets go to the one that stands for both, and the other nets stay. */
  lemma NetJoined(net: SigBit -> SigBit, a: SigBit, b: SigBit, r: SigBit, x: SigBit)
    requires r.WireBit?
    ensures JoinNets(net, a, b)(x) == r <==>
      if r == Joined(net(a), net(b), net(b)) then net(x) == net(a) || net(x) == net(b)
      else net(x) == r && r != net(a) && r != net(b)
  {
  }

  lemma EntryJoined(db: Database, lhs: SigBit, rhs: SigBit, r: SigBit)
    requires r.WireBit? && forall k :: k in db ==> k.WireBit?
    ensures var top := Joined(lhs, rhs, rhs);
      EntryAt(JoinEntries(db, lhs, rhs, top), r) ==
        if r == top then MergeInfo(EntryAt(db, lhs), EntryAt(db, rhs))
        else if r == lhs || r == rhs then EMPTY else EntryAt(db, r)
  {
    assert MergeInfo(EMPTY, EMPTY) == EMPTY;
    assert MergeInfo(EntryAt(db, lhs), EMPTY) == EntryAt(db, lhs) &&
        MergeInfo(EMPTY, EntryAt(db, rhs)) == EntryAt(db, rhs);
  }

  /** Membership in net `r` of `net'` is membership in either of two nets of `net`. */
  ghost predicate Union(net: SigBit -> SigBit, net': SigBit -> SigBit, p: SigBit, q: SigBit, r: SigBit) {
    forall z :: net'(z) == r <==> net(z) == p || net(z) == q
  }

  lemma UnionOn(pins: imap<PortInfo, SigBit>, net: SigBit -> SigBit, net': SigBit -> SigBit, p: SigBit, q: SigBit,
      r: SigBit, pin: PortInfo)
    requires Union(net, net', p, q, r)
    ensures OnNet(pins, net', r, pin) <==> OnNet(pins, net, p, pin) || OnNet(pins, net, q, pin)
  {
  }

  lemma RightJoined(x: SigBitInfo, y: SigBitInfo, pins: imap<PortInfo, SigBit>, ins: set<SigBit>, outs: set<SigBit>,
      net: SigBit -> SigBit, net': SigBit -> SigBit, p: SigBit, q: SigBit, r: SigBit)
    requires Union(net, net', p, q, r)
    requires Right(x, pins, ins, outs, net, p) && Right(y, pins, ins, outs, net, q)
    ensures Right(MergeInfo(x, y), pins, ins, outs, net', r)
  {
    SomeJoined(ins, net, net', p, q, r);
    SomeJoined(outs, net, net', p, q, r);
    hide Union, OnNet, AnyOn;
    forall pin ensures pin in MergeInfo(x, y).ports <==> OnNet(pins, net', r, pin) {
      UnionOn(pins, net, net', p, q, r, pin);
    }
  }

  lemma SomeJoined(bits: set<SigBit>, net: SigBit -> SigBit, net': SigBit -> SigBit, p: SigBit, q: SigBit, r: SigBit)
    requires Union(net, net', p, q, r)
    ensures AnyOn(bits, net', r) <==> AnyOn(bits, net, p) || AnyOn(bits, net, q)
  {
    if AnyOn(bits, net', r) {
      var b :| b in bits && net'(b) == r;
      assert net(b) == p || net(b) == q;
    }
    if AnyOn(bits, net, p) {
      var b :| b in bits && net(b) == p;
      assert net'(b) == r;
    }
    if AnyOn(bits, net, q) {
      var b :| b in bits && net(b) == q;
      assert net'(b) == r;
    }
  }

  ghost predicate Nobody(net: SigBit -> SigBit, r: SigBit) {
    forall z :: net(z) != r
  }

  lemma RightNone(pins: imap<PortInfo, SigBit>, ins: set<SigBit>, outs: set<SigBit>, net: SigBit -> SigBit, r: SigBit)
    requires Nobody(net, r)
    ensures Right(EMPTY, pins, ins, outs, net, r)
  {
  }

  lemma JoinedUnion(net: SigBit -> SigBit, a: SigBit, b: SigBit, r: SigBit)
    requires r.WireBit?
    ensures r == Joined(net(a), net(b), net(b)) ==> Union(net, JoinNets(net, a, b), net(a), net(b), r)
    ensures r != Joined(net(a), net(b), net(b)) && (r == net(a) || r == net(b)) ==> Nobody(JoinNets(net, a, b), r)
    ensures r != Joined(net(a), net(b), net(b)) && r != net(a) && r != net(b) ==>
        Union(net, JoinNets(net, a, b), r, r, r)
  {
    hide JoinNets;
    var net' := JoinNets(net, a, b);
    forall z ensures net'(z) == r <==>
      if r == Joined(net(a), net(b), net(b)) then net(z) == net(a) ||
          net(z) == net(b) else net(z) == r && r != net(a) && r != net(b)
    {
      NetJoined(net, a, b, r, z);
    }
  }

  lemma EntriesJoined(db: Database, pins: imap<PortInfo, SigBit>, ins: set<SigBit>, outs: set<SigBit>,
      net: SigBit -> SigBit, a: SigBit, b: SigBit)
    requires Indexed(db, pins, ins, outs, net) && Settled(net)
    ensures var net' := JoinNets(net, a, b);
      Settled(net') && Indexed(JoinEntries(db, net(a), net(b), Joined(net(a), net(b), net(b))), pins, ins, outs, net')
  {
    hide Right, Union, Nobody;
    var lhs, rhs, net' := net(a), net(b), JoinNets(net, a, b);
    var top := Joined(lhs, rhs, rhs);
    var db' := JoinEntries(db, lhs, rhs, top);
    assert net(rhs) == rhs && net(lhs) == lhs;
    forall r: SigBit | r.WireBit? ensures Right(EntryAt(db', r), pins, ins, outs, net', r) {
      EntryJoined(db, lhs, rhs, r);
      JoinedUnion(net, a, b, r);
      if r == top {
        RightJoined(EntryAt(db, lhs), EntryAt(db, rhs), pins, ins, outs, net, net', lhs, rhs, r);
      } else if r == lhs || r == rhs {
        RightNone(pins, ins, outs, net', r);
      } else {
        RightJoined(EntryAt(db, r), EntryAt(db, r), pins, ins, outs, net, net', r, r, r);
        assert MergeInfo(EntryAt(db, r), EntryAt(db, r)) == EntryAt(db, r);
      }
    }
  }

  // ---------------------------------------------------------------- module ports

  function FlagInput(db: Database, r: SigBit): Database {
    if r.WireBit? then db[r := EntryAt(db, r).(isInput := true)] else db
  }

  function FlagOutput(db: Database, r: SigBit): Database {
    if r.WireBit? then db[r := EntryAt(db, r).(isOutput := true)] else db
  }

  lemma SomeMore(bits: set<SigBit>, net: SigBit -> SigBit, b: SigBit, r: SigBit)
    ensures AnyOn(bits + {b}, net, r) <==> AnyOn(bits, net, r) || net(b) == r
  {
    if AnyOn(bits, net, r) {
      var x :| x in bits && net(x) == r;
      assert x in bits + {b};
    }
    assert b in bits + {b};
  }

  lemma InputAdded(db: Database, pins: imap<PortInfo, SigBit>, ins: set<SigBit>, outs: set<SigBit>,
      net: SigBit -> SigBit, b: SigBit)
    requires Indexed(db, pins, ins, outs, net) && Settled(net)
    ensures Indexed(FlagInput(db, net(b)), pins, ins + {b}, outs, net)
  {
    var db' := FlagInput(db, net(b));
    forall r: SigBit | r.WireBit? ensures Right(EntryAt(db', r), pins, ins + {b}, outs, net, r) {
      SomeMore(ins, net, b, r);
      hide AnyOn, OnNet;
      assert Right(EntryAt(db, r), pins, ins, outs, net, r);
    }
  }

  lemma OutputAdded(db: Database, pins: imap<PortInfo, SigBit>, ins: set<SigBit>, outs: set<SigBit>,
      net: SigBit -> SigBit, b: SigBit)
    requires Indexed(db, pins, ins, outs, net) && Settled(net)
    ensures Indexed(FlagOutput(db, net(b)), pins, ins, outs + {b}, net)
  {
    var db' := FlagOutput(db, net(b));
    forall r: SigBit | r.WireBit? ensures Right(EntryAt(db', r), pins, ins, outs + {b}, net, r) {
      SomeMore(outs, net, b, r);
      hide AnyOn, OnNet;
      assert Right(EntryAt(db, r), pins, ins, outs, net, r);
    }
  }

  lemma NothingIndexed(net: SigBit -> SigBit)
    ensures Indexed(map[], imap[], {}, {}, net)
  {
  }

  // ---------------------------------------------------------------- cell ports

  ghost function Pins(cells: map<(nat, nat), seq<SigBit>>): imap<PortInfo, SigBit> {
    imap pin: PortInfo | (pin.cell, pin.port) in cells &&
        pin.offset < |cells[(pin.cell, pin.port)]| :: cells[(pin.cell, pin.port)][pin.offset]
  }

  ghost predicate AtPort(pin: PortInfo, cell: nat, port: nat) {
    pin.cell == cell && pin.port == port
  }

  /** With the first `n` bits of a signal on the pins of a port. */
  ghost function PinsWith(pins: imap<PortInfo, SigBit>, cell: nat, port: nat, sig: seq<SigBit>,
      n: nat): imap<PortInfo, SigBit>
    requires n <= |sig|
  {
    imap pin: PortInfo | pin in pins ||
        (AtPort(pin, cell, port) && pin.offset < n) ::
        if AtPort(pin, cell, port) && pin.offset < n then sig[pin.offset] else pins[pin]
  }

  /** Without the first `n` pins of a port. */
  ghost function PinsWithout(pins: imap<PortInfo, SigBit>, cell: nat, port: nat, n: nat): imap<PortInfo, SigBit> {
    imap pin: PortInfo | pin in pins && !(AtPort(pin, cell, port) && pin.offset < n) :: pins[pin]
  }

  ghost predicate Free(pins: imap<PortInfo, SigBit>, cell: nat, port: nat) {
    forall pin :: pin in pins ==> !AtPort(pin, cell, port)
  }

  /** The port carries exactly this signal. */
  ghost predicate Carried(pins: imap<PortInfo, SigBit>, cell: nat, port: nat, sig: seq<SigBit>) {
    && (forall i: nat :: i < |sig| ==> PortInfo(cell, port, i) in pins && pins[PortInfo(cell, port, i)] == sig[i])
    && (forall pin :: pin in pins && AtPort(pin, cell, port) ==> pin.offset < |sig|)
  }

  function SignalAt(cells: map<(nat, nat), seq<SigBit>>, cell: nat, port: nat): seq<SigBit> {
    if (cell, port) in cells then cells[(cell, port)] else []
  }

  lemma PinsReplaced(cells: map<(nat, nat), seq<SigBit>>, cell: nat, port: nat, sig: seq<SigBit>)
    ensures var before := SignalAt(cells, cell, port); var without := PinsWithout(Pins(cells), cell, port, |before|);
      && Carried(Pins(cells), cell, port, before) && Free(without, cell, port)
      && PinsWith(without, cell, port, sig, |sig|) == Pins(cells[(cell, port) := sig])
      && without == Pins(cells - {(cell, port)})
  {
    var before := SignalAt(cells, cell, port);
    PinsRemoved(cells, cell, port);
    PinsSet(cells, cell, port, sig);
    forall i: nat | i < |before|
      ensures PortInfo(cell, port, i) in Pins(cells) && Pins(cells)[PortInfo(cell, port, i)] == before[i]
    {
    }
  }

  lemma PinsRemoved(cells: map<(nat, nat), seq<SigBit>>, cell: nat, port: nat)
    ensures PinsWithout(Pins(cells), cell, port, |SignalAt(cells, cell, port)|) == Pins(cells - {(cell, port)})
    ensures Free(Pins(cells - {(cell, port)}), cell, port)
  {
    var without, after := PinsWithout(Pins(cells), cell, port, |SignalAt(cells, cell, port)|),
        Pins(cells - {(cell, port)});
    forall pin: PortInfo ensures (pin in without <==> pin in after) && (pin in without ==> without[pin] == after[pin]) {
      assert AtPort(pin, cell, port) <==> (pin.cell, pin.port) == (cell, port);
    }
  }

  lemma PinsSet(cells: map<(nat, nat), seq<SigBit>>, cell: nat, port: nat, sig: seq<SigBit>)
    ensures PinsWith(Pins(cells - {(cell, port)}), cell, port, sig, |sig|) == Pins(cells[(cell, port) := sig])
  {
    var with, after := PinsWith(Pins(cells - {(cell, port)}), cell, port, sig, |sig|), Pins(cells[(cell, port) := sig]);
    forall pin: PortInfo ensures (pin in with <==> pin in after) && (pin in with ==> with[pin] == after[pin]) {
      assert AtPort(pin, cell, port) <==> (pin.cell, pin.port) == (cell, port);
    }
  }

  lemma PinsGrow(pins: imap<PortInfo, SigBit>, cell: nat, port: nat, sig: seq<SigBit>, n: nat)
    requires n < |sig| && Free(pins, cell, port)
    ensures PortInfo(cell, port, n) !in PinsWith(pins, cell, port, sig, n)
    ensures var pin := PortInfo(cell, port, n);
      PinsWith(pins, cell, port, sig, n + 1) == PinsWith(pins, cell, port, sig, n)[pin := sig[n]]
  {
    var pin, less, more := PortInfo(cell, port, n), PinsWith(pins, cell, port, sig, n),
        PinsWith(pins, cell, port, sig, n + 1);
    assert AtPort(pin, cell, port);
    forall x: PortInfo ensures x in more <==> x in less || x == pin { }
    forall x: PortInfo | x in more ensures more[x] == less[pin := sig[n]][x] { }
  }

  lemma PinsShrink(pins: imap<PortInfo, SigBit>, cell: nat, port: nat, sig: seq<SigBit>, n: nat)
    requires n < |sig| && Carried(pins, cell, port, sig)
    ensures PortInfo(cell, port, n) in PinsWithout(pins, cell, port, n)
    ensures PinsWithout(pins, cell, port, n)[PortInfo(cell, port, n)] == sig[n]
    ensures PinsWithout(pins, cell, port, n + 1) == PinsWithout(pins, cell, port, n) - {PortInfo(cell, port, n)}
  {
    assert PortInfo(cell, port, n) in pins && pins[PortInfo(cell, port, n)] == sig[n];
  }

  // ---------------------------------------------------------------- the index

  class ModIndex {
    const hash: SigBit -> nat
    const tableSize: nat -> nat
    var sigmap: SigMap
    var mod: Module
    var database: Database
    var autoReload: bool
    // The pairs the index has been told about, those among them that the module does not keep included.
    ghost var known: seq<(SigBit, SigBit)>

    ghost function Repr(): set<object>
      reads this`sigmap
    {
      {sigmap, sigmap.database, sigmap.database.database}
    }

    /** The signal map knows these nets. */
    ghost predicate Follows(net: SigBit -> SigBit)
      reads this`sigmap, Repr()
    {
      sigmap.Valid() && Settled(net) && forall x :: sigmap.Rep(x) == net(x)
    }

    ghost predicate Valid()
      reads this, Repr()
    {
      && (forall n :: tableSize(n) >= n) && sigmap.Valid()
      && (!autoReload ==>
           && Follows(Nets(known)) && Alike(Nets(known), Nets(mod.conns))
           && Indexed(database, Pins(mod.cells), mod.inputs, mod.outputs, Nets(known)))
    }

    constructor (m: Module, hash: SigBit -> nat, tableSize: nat -> nat)
      requires forall n :: tableSize(n) >= n
      ensures Valid() && fresh(Repr()) && mod == m && autoReload
    {
      hide SigMap.Valid, Follows, Indexed, Alike, Nets, Pins;
      this.hash, this.tableSize := hash, tableSize;
      sigmap := new SigMap(hash, tableSize);
      mod, database, autoReload, known := m, map[], true, [];
    }

    /** Maps a bit to its net. */
    method Apply(bit: SigBit, ghost net: SigBit -> SigBit) returns (r: SigBit)
      requires Follows(net)
      modifies Repr()
      ensures Follows(net) && r == net(bit) && sigmap.database == old(sigmap.database)
    {
      hide SigMap.Valid, Settled, SigMap.Rep;
      r := sigmap.Apply(bit);
    }

    method PortAdd(cell: nat, port: nat, sig: seq<SigBit>, ghost pins: imap<PortInfo, SigBit>, ghost ins: set<SigBit>,
        ghost outs: set<SigBit>, ghost net: SigBit -> SigBit)
      requires Follows(net) && Indexed(database, pins, ins, outs, net) && Free(pins, cell, port)
      modifies this`database, Repr()
      ensures Follows(net) && Indexed(database, PinsWith(pins, cell, port, sig, |sig|), ins, outs, net)
    {
      hide SigMap.Valid, SigMap.Rep, Indexed, Free, PinsWith;
      NoPinsYet(pins, cell, port, sig);
      for i := 0 to |sig|
        invariant sigmap == old(sigmap) && Follows(net) &&
            Indexed(database, PinsWith(pins, cell, port, sig, i), ins, outs, net)
      {
        var bit := Apply(sig[i], net);
        PinsGrow(pins, cell, port, sig, i);
        PinAdded(database, PinsWith(pins, cell, port, sig, i), ins, outs, net, sig[i], PortInfo(cell, port, i));
        database := AddPin(database, bit, PortInfo(cell, port, i));
      }
    }

    method PortDel(cell: nat, port: nat, sig: seq<SigBit>, ghost pins: imap<PortInfo, SigBit>, ghost ins: set<SigBit>,
        ghost outs: set<SigBit>, ghost net: SigBit -> SigBit)
      requires Follows(net) && Indexed(database, pins, ins, outs, net) && Carried(pins, cell, port, sig)
      modifies this`database, Repr()
      ensures Follows(net) && Indexed(database, PinsWithout(pins, cell, port, |sig|), ins, outs, net)
    {
      hide SigMap.Valid, SigMap.Rep, Indexed, Carried, PinsWithout;
      AllPinsYet(pins, cell, port);
      for i := 0 to |sig|
        invariant sigmap == old(sigmap) && Follows(net) &&
            Indexed(database, PinsWithout(pins, cell, port, i), ins, outs, net)
      {
        var bit := Apply(sig[i], net);
        PinsShrink(pins, cell, port, sig, i);
        PinDeleted(database, PinsWithout(pins, cell, port, i), ins, outs, net, PortInfo(cell, port, i));
        database := DelPin(database, bit, PortInfo(cell, port, i));
      }
    }

    /** A cell port is about to change. */
    method NotifyPort(cell: nat, port: nat, oldSig: seq<SigBit>, sig: seq<SigBit>)
      requires Valid() && oldSig == SignalAt(mod.cells, cell, port)
      modifies this`database, Repr()
      ensures sigmap.Valid() && Repr() == old(Repr())
      ensures !autoReload ==>
        && Follows(Nets(known))
        && Indexed(database, Pins(mod.cells[(cell, port) := sig]), mod.inputs, mod.outputs, Nets(known))
        && (|sig| == 0 ==> Indexed(database, Pins(mod.cells - {(cell, port)}), mod.inputs, mod.outputs, Nets(known)))
    {
      hide SigMap.Valid, SigMap.Rep, Indexed, Free, Carried, Pins, PinsWith, PinsWithout;
      if autoReload { return; }
      ghost var net, pins, ins, outs := Nets(known), Pins(mod.cells), mod.inputs, mod.outputs;
      ghost var without := PinsWithout(pins, cell, port, |oldSig|);
      PinsReplaced(mod.cells, cell, port, sig);
      PortDel(cell, port, oldSig, pins, ins, outs, net);
      if |sig| == 0 { NoPinsYet(without, cell, port, sig); }
      PortAdd(cell, port, sig, without, ins, outs, net);
    }

    method SetPort(cell: nat, port: nat, sig: seq<SigBit>)
      requires Valid()
      modifies this`database, this`mod, Repr()
      ensures Valid() && Repr() == old(Repr()) && mod == old(mod).(cells := old(mod).cells[(cell, port) := sig])
    {
      hide SigMap.Valid, SigMap.Rep, Indexed, Pins, Follows, Alike;
      if (cell, port) in mod.cells && mod.cells[(cell, port)] == sig {
        assert mod.cells[(cell, port) := sig] == mod.cells;
        return;
      }
      NotifyPort(cell, port, SignalAt(mod.cells, cell, port), sig);
      mod := mod.(cells := mod.cells[(cell, port) := sig]);
    }

    method UnsetPort(cell: nat, port: nat)
      requires Valid()
      modifies this`database, this`mod, Repr()
      ensures Valid() && Repr() == old(Repr()) && mod == old(mod).(cells := old(mod).cells - {(cell, port)})
    {
      hide SigMap.Valid, SigMap.Rep, Indexed, Pins, Follows, Alike;
      if (cell, port) in mod.cells {
        NotifyPort(cell, port, mod.cells[(cell, port)], []);
        mod := mod.(cells := mod.cells - {(cell, port)});
      } else {
        assert mod.cells - {(cell, port)} == mod.cells;
      }
    }

    method AddPair(lhs: SigBit, rhs: SigBit, ghost a: SigBit, ghost b: SigBit, ghost net: SigBit -> SigBit)
      requires Follows(net) && net(lhs) == net(a) && net(rhs) == net(b)
      modifies Repr()
      ensures Follows(JoinNets(net, a, b)) && Repr() == old(Repr())
    {
      hide SigMap.Valid, SigMap.Rep, Joined;
      JoinedSettled(net, a, b);
      sigmap.AddPair(lhs, rhs);
    }

    /** Joins the nets of two bits and their entries. */
    method ConnectBit(a: SigBit, b: SigBit, ghost net: SigBit -> SigBit)
      requires Follows(net) && Settled(net) && forall r :: r in database ==> r.WireBit?
      modifies this`database, Repr()
      ensures Follows(JoinNets(net, a, b)) && Repr() == old(Repr())
      ensures database == JoinEntries(old(database), net(a), net(b), Joined(net(a), net(b), net(b)))
    {
      hide Follows, JoinNets, Settled, Joined, JoinEntries, MergeInfo;
      ghost var net' := JoinNets(net, a, b);
      EntriesMoved(database, net(a), net(b), Joined(net(a), net(b), net(b)));
      NetOfNet(net, a, b);
      assert net(net(a)) == net(a) && net(net(b)) == net(b);
      var lhs := Apply(a, net);
      var rhs := Apply(b, net);
      var hasLhs, hasRhs := lhs in database, rhs in database;
      if !hasLhs && !hasRhs {
        AddPair(lhs, rhs, a, b, net);
      } else if !hasRhs {
        var info := database[lhs];
        database := database - {lhs};
        AddPair(lhs, rhs, a, b, net);
        lhs := Apply(lhs, net');
        if lhs.WireBit? { database := database[lhs := info]; }
      } else if !hasLhs {
        var info := database[rhs];
        database := database - {rhs};
        AddPair(lhs, rhs, a, b, net);
        rhs := Apply(rhs, net');
        if rhs.WireBit? { database := database[rhs := info]; }
      } else {
        var info := MergeInfo(database[lhs], database[rhs]);
        database := database - {lhs} - {rhs};
        AddPair(lhs, rhs, a, b, net);
        rhs := Apply(rhs, net');
        if rhs.WireBit? { database := database[rhs := info]; }
      }
    }

    method ConnectOne(a: SigBit, b: SigBit, ghost conns: seq<(SigBit, SigBit)>)
      requires Follows(Nets(conns)) && Indexed(database, Pins(mod.cells), mod.inputs, mod.outputs, Nets(conns))
      modifies this`database, Repr()
      ensures Repr() == old(Repr()) && Follows(Nets(conns + [(a, b)]))
      ensures Indexed(database, Pins(mod.cells), mod.inputs, mod.outputs, Nets(conns + [(a, b)]))
    {
      hide Follows, Indexed, Pins, Nets, Joined, JoinEntries, Settled, JoinNets;
      ghost var pins, ins, outs := Pins(mod.cells), mod.inputs, mod.outputs;
      ghost var net, net' := Nets(conns), Nets(conns + [(a, b)]);
      NetsSettled(conns);
      NetsSettled(conns + [(a, b)]);
      IndexedKeys(database, pins, ins, outs, net);
      EntriesJoined(database, pins, ins, outs, net, a, b);
      ConnectBit(a, b, net);
      NetsJoin(conns, a, b);
      SameNets(database, pins, ins, outs, JoinNets(net, a, b), net');
      FollowsSame(JoinNets(net, a, b), net');
    }

    lemma FollowsSame(net: SigBit -> SigBit, net': SigBit -> SigBit)
      requires Follows(net) && Settled(net') && forall x :: net(x) == net'(x)
      ensures Follows(net')
    {
      hide SigMap.Valid, SigMap.Rep, Settled;
    }

    /** Two signals are about to be connected. */
    method NotifyConnect(lhs: seq<SigBit>, rhs: seq<SigBit>, ghost conns: seq<(SigBit, SigBit)>)
      requires |lhs| == |rhs| && sigmap.Valid()
      requires !autoReload ==>
          Follows(Nets(conns)) && Indexed(database, Pins(mod.cells), mod.inputs, mod.outputs, Nets(conns))
      modifies this`database, Repr()
      ensures sigmap.Valid() && Repr() == old(Repr())
      ensures !autoReload ==>
        && Follows(Nets(conns + Zip(lhs, rhs)))
        && Indexed(database, Pins(mod.cells), mod.inputs, mod.outputs, Nets(conns + Zip(lhs, rhs)))
    {
      hide SigMap.Valid, SigMap.Rep, Indexed, Pins, Nets, Settled;
      if autoReload { return; }
      ghost var pins, ins, outs := Pins(mod.cells), mod.inputs, mod.outputs;
      assert conns + Zip(lhs[..0], rhs[..0]) == conns;
      for i := 0 to |lhs|
        invariant Repr() == old(Repr()) && Follows(Nets(conns + Zip(lhs[..i], rhs[..i])))
        invariant Indexed(database, pins, ins, outs, Nets(conns + Zip(lhs[..i], rhs[..i])))
      {
        ghost var done := conns + Zip(lhs[..i], rhs[..i]);
        ConnectOne(lhs[i], rhs[i], done);
        assert conns + Zip(lhs[..i + 1], rhs[..i + 1]) == done + [(lhs[i], rhs[i])];
      }
      assert lhs[..|lhs|] == lhs && rhs[..|rhs|] == rhs;
    }

    /** Connects two signals. The module keeps only what is assigned to wires. */
    method Connect(lhs: seq<SigBit>, rhs: seq<SigBit>)
      requires Valid() && |lhs| == |rhs|
      modifies this`database, this`mod, this`known, Repr()
      ensures Repr() == old(Repr()) && sigmap.Valid()
      ensures mod == old(mod).(conns := old(mod).conns + WirePairs(lhs, rhs))
      // The index has also joined what is not kept. It is that of the module exactly when every bit across from a
      // constant ends up on a constant net.
      ensures known == if autoReload then old(known) else old(known) + Told(lhs, rhs)
      ensures Valid() <==> autoReload || Harmless(mod.conns, lhs, rhs)
      ensures !autoReload ==>
          Follows(Nets(known)) && Indexed(database, Pins(mod.cells), mod.inputs, mod.outputs, Nets(known))
    {
      hide SigMap.Valid, Indexed, Pins, Nets, Follows, Alike, Harmless, Net, WirePairs, Zip;
      ghost var conns, before := mod.conns, known;
      NotifyConnect(lhs, rhs, known);
      if HasConst(lhs) {
        var wires, others := KeepWires(lhs, rhs);
        assert |wires| == 0 ==> known + Zip(lhs, rhs) + WirePairs(lhs, rhs) == known + Zip(lhs, rhs);
        if |wires| > 0 {
          NotifyConnect(wires, others, known + Zip(lhs, rhs));
        }
        assert known + Told(lhs, rhs) == known + Zip(lhs, rhs) + WirePairs(lhs, rhs);
        mod := mod.(conns := mod.conns + Zip(wires, others));
      } else {
        WirePairsAll(lhs, rhs);
        assert known + Told(lhs, rhs) == known + Zip(lhs, rhs);
        mod := mod.(conns := mod.conns + Zip(lhs, rhs));
      }
      if !autoReload {
        known := known + Told(lhs, rhs);
        ToldAlike(before, conns, lhs, rhs);
      }
    }

    /** Anything may happen to the module behind a notification that asks for a reload. */
    method Blackout(m: Module)
      requires sigmap.Valid() && forall n :: tableSize(n) >= n
      modifies this`mod, this`autoReload
      ensures Valid() && mod == m && autoReload
    {
      mod, autoReload := m, true;
    }

    /** Builds the index of the module from scratch. */
    method ReloadModule()
      requires sigmap.Valid() && forall n :: tableSize(n) >= n
      modifies this`sigmap, this`database, this`autoReload, this`known
      ensures Valid() && !autoReload && fresh(Repr())
    {
      hide SigMap.Valid, SigMap.Rep, Indexed, Pins, Nets, Settled;
      known := mod.conns;
      LoadSigmap();
      LoadFlags();
      LoadCells();
      autoReload := false;
    }

    method LoadSigmap()
      requires forall n :: tableSize(n) >= n
      modifies this`sigmap
      ensures Follows(Nets(mod.conns)) && fresh(Repr())
    {
      hide SigMap.Valid, SigMap.Rep, Nets, Settled, Net;
      sigmap := new SigMap(hash, tableSize);
      assert mod.conns[..0] == [];
      NetsStart();
      NetsSettled([]);
      for i := 0 to |mod.conns|
        invariant Follows(Nets(mod.conns[..i])) && fresh(Repr())
      {
        var pair := mod.conns[i];
        assert mod.conns[..i + 1] == mod.conns[..i] + [pair];
        AddPair(pair.0, pair.1, pair.0, pair.1, Nets(mod.conns[..i]));
        NetsJoin(mod.conns[..i], pair.0, pair.1);
        NetsSettled(mod.conns[..i + 1]);
        FollowsSame(JoinNets(Nets(mod.conns[..i]), pair.0, pair.1), Nets(mod.conns[..i + 1]));
      }
      assert mod.conns[..|mod.conns|] == mod.conns;
    }

    method LoadFlags()
      requires Follows(Nets(mod.conns))
      modifies this`database, Repr()
      ensures Follows(Nets(mod.conns)) && Indexed(database, imap[], mod.inputs, mod.outputs, Nets(mod.conns))
    {
      hide SigMap.Valid, SigMap.Rep, Nets, Indexed, Settled, FlagInput, FlagOutput;
      ghost var net := Nets(mod.conns);
      NetsSettled(mod.conns);
      database := map[];
      NothingIndexed(net);
      var rest := mod.inputs;
      assert mod.inputs - rest == {};
      while rest != {}
        invariant sigmap == old(sigmap) && rest <= mod.inputs && Follows(net) &&
            Indexed(database, imap[], mod.inputs - rest, {}, net)
        decreases rest
      {
        var b :| b in rest;
        assert mod.inputs - (rest - {b}) == mod.inputs - rest + {b};
        var r := Apply(b, net);
        InputAdded(database, imap[], mod.inputs - rest, {}, net, b);
        database := FlagInput(database, r);
        rest := rest - {b};
      }
      assert mod.inputs - rest == mod.inputs;
      rest := mod.outputs;
      assert mod.outputs - rest == {};
      while rest != {}
        invariant sigmap == old(sigmap) && rest <= mod.outputs && Follows(net) &&
            Indexed(database, imap[], mod.inputs, mod.outputs - rest, net)
        decreases rest
      {
        var b :| b in rest;
        assert mod.outputs - (rest - {b}) == mod.outputs - rest + {b};
        var r := Apply(b, net);
        OutputAdded(database, imap[], mod.inputs, mod.outputs - rest, net, b);
        database := FlagOutput(database, r);
        rest := rest - {b};
      }
      assert mod.outputs - rest == mod.outputs;
    }

    method LoadCells()
      requires Follows(Nets(mod.conns)) && Indexed(database, imap[], mod.inputs, mod.outputs, Nets(mod.conns))
      modifies this`database, Repr()
      ensures Follows(Nets(mod.conns)) && Indexed(database, Pins(mod.cells), mod.inputs, mod.outputs, Nets(mod.conns))
    {
      hide Follows, Nets, Indexed, Pins, Free, PinsWith;
      ghost var net, ins, outs := Nets(mod.conns), mod.inputs, mod.outputs;
      var rest := mod.cells.Keys;
      ghost var done: map<(nat, nat), seq<SigBit>> := map[];
      NoCells();
      while rest != {}
        invariant sigmap == old(sigmap) && rest <= mod.cells.Keys && done == map k | k in mod.cells &&
            k !in rest :: mod.cells[k]
        invariant Follows(net) && Indexed(database, Pins(done), ins, outs, net)
        decreases rest
      {
        var key :| key in rest;
        CellAdded(done, key, mod.cells[key]);
        PortAdd(key.0, key.1, mod.cells[key], Pins(done), ins, outs, net);
        done := done[key := mod.cells[key]];
        rest := rest - {key};
      }
      assert done == mod.cells;
    }

    /** What the index says about a bit is what the module makes of it. */
    method Query(bit: SigBit) returns (info: Option<SigBitInfo>)
      requires Valid()
      modifies this`sigmap, this`database, this`autoReload, this`known, Repr()
      ensures Valid() && !autoReload && mod == old(mod) && fresh(Repr() - old(Repr()))
      ensures Answers(if info.None? then EMPTY else info.value, mod, Nets(mod.conns), bit)
      ensures info == if Net(known, bit) in database then Some(database[Net(known, bit)]) else None
      ensures var said, r := if info.None? then SigBitInfo(false, false, {}) else info.value, Net(mod.conns, bit);
              if r.ConstBit? then said == SigBitInfo(false, false, {})
              else
                && (said.isInput <==> exists b :: b in mod.inputs && Net(mod.conns, b) == r)
                && (said.isOutput <==> exists b :: b in mod.outputs && Net(mod.conns, b) == r)
                && forall cell: nat, port: nat, i: nat ::
                     PortInfo(cell, port, i) in said.ports <==>
                       && (cell, port) in mod.cells && i < |mod.cells[(cell, port)]|
                       && Net(mod.conns, mod.cells[(cell, port)][i]) == r
    {
      hide SigMap.Valid, SigMap.Rep, Nets, Pins, Right;
      if autoReload { ReloadModule(); }
      ghost var net := Nets(known);
      var r := Apply(bit, net);
      info := if r in database then Some(database[r]) else None;
      assert r.WireBit? ==> Right(EntryAt(database, r), Pins(mod.cells), mod.inputs, mod.outputs, net, r);
      AlikeAnswers(EntryAt(database, r), mod, net, Nets(mod.conns), bit);
      AnswersMean(EntryAt(database, r), mod, bit);
      NetsAt(known, bit);
    }
  }

  lemma NoPinsYet(pins: imap<PortInfo, SigBit>, cell: nat, port: nat, sig: seq<SigBit>)
    ensures PinsWith(pins, cell, port, sig, 0) == pins
  {
  }

  lemma AllPinsYet(pins: imap<PortInfo, SigBit>, cell: nat, port: nat)
    ensures PinsWithout(pins, cell, port, 0) == pins
  {
  }

  function Zip(a: seq<SigBit>, b: seq<SigBit>): (z: seq<(SigBit, SigBit)>)
    requires |a| == |b|
    ensures |z| == |a| && forall i :: 0 <= i < |z| ==> z[i] == (a[i], b[i])
  {
    seq(|a|, i requires 0 <= i < |a| => (a[i], b[i]))
  }

  lemma NetsJoin(conns: seq<(SigBit, SigBit)>, a: SigBit, b: SigBit)
    ensures forall x :: JoinNets(Nets(conns), a, b)(x) == Nets(conns + [(a, b)])(x)
  {
    hide Net;
    forall x ensures JoinNets(Nets(conns), a, b)(x) == Nets(conns + [(a, b)])(x) { NetsMore(conns, a, b, x); }
  }

  lemma EntriesMoved(db: Database, lhs: SigBit, rhs: SigBit, r: SigBit)
    ensures lhs !in db && rhs !in db ==> JoinEntries(db, lhs, rhs, r) == db
    ensures lhs in db && rhs !in db ==>
        JoinEntries(db, lhs, rhs, r) == if r.WireBit? then (db - {lhs})[r := db[lhs]] else db - {lhs}
    ensures lhs !in db && rhs in db ==>
        JoinEntries(db, lhs, rhs, r) == if r.WireBit? then (db - {rhs})[r := db[rhs]] else db - {rhs}
    ensures lhs in db && rhs in db ==>
      JoinEntries(db, lhs, rhs, r) == if r.WireBit? then (db - {lhs} - {rhs})[r := MergeInfo(db[lhs], db[rhs])]
          else db - {lhs} - {rhs}
  {
    if rhs !in db { assert db - {lhs, rhs} == db - {lhs}; }
    if lhs !in db { assert db - {lhs, rhs} == db - {rhs}; }
    assert db - {lhs, rhs} == db - {lhs} - {rhs};
  }

  lemma NetsSettled(conns: seq<(SigBit, SigBit)>)
    ensures Settled(Nets(conns))
  {
    forall x ensures Net(conns, Net(conns, x)) == Net(conns, x) { NetFacts(conns, x); }
  }

  lemma NetOfNet(net: SigBit -> SigBit, a: SigBit, b: SigBit)
    requires Settled(net)
    ensures net(net(a)) == net(a) && net(net(b)) == net(b)
    ensures JoinNets(net, a, b)(net(b)) == Joined(net(a), net(b), net(b))
    ensures net(a).WireBit? || net(b).WireBit? ==> JoinNets(net, a, b)(net(a)) == Joined(net(a), net(b), net(b))
  {
  }

  lemma JoinedSettled(net: SigBit -> SigBit, a: SigBit, b: SigBit)
    requires Settled(net)
    ensures Settled(JoinNets(net, a, b))
  {
  }

  lemma IndexedKeys(db: Database, pins: imap<PortInfo, SigBit>, ins: set<SigBit>, outs: set<SigBit>,
      net: SigBit -> SigBit)
    requires Indexed(db, pins, ins, outs, net)
    ensures forall r :: r in db ==> r.WireBit? && net(r) == r
  {
  }

  /** The index depends on the nets only through their values. */
  lemma SameNets(db: Database, pins: imap<PortInfo, SigBit>, ins: set<SigBit>, outs: set<SigBit>,
      net: SigBit -> SigBit, net': SigBit -> SigBit)
    requires Indexed(db, pins, ins, outs, net) && forall x :: net(x) == net'(x)
    ensures Indexed(db, pins, ins, outs, net')
  {
    forall r: SigBit | r.WireBit? ensures Right(EntryAt(db, r), pins, ins, outs, net', r) {
      assert Union(net, net', r, r, r);
      RightJoined(EntryAt(db, r), EntryAt(db, r), pins, ins, outs, net, net', r, r, r);
      assert MergeInfo(EntryAt(db, r), EntryAt(db, r)) == EntryAt(db, r);
    }
  }

  predicate HasConst(sig: seq<SigBit>) {
    exists i :: 0 <= i < |sig| && sig[i].ConstBit?
  }

  /** The pairs whose left side is a wire. */
  function WirePairs(lhs: seq<SigBit>, rhs: seq<SigBit>): seq<(SigBit, SigBit)>
    requires |lhs| == |rhs|
  {
    if |lhs| == 0 then []
    else
      var n := |lhs| - 1;
      WirePairs(lhs[..n], rhs[..n]) + if lhs[n].WireBit? then [(lhs[n], rhs[n])] else []
  }

  method KeepWires(lhs: seq<SigBit>, rhs: seq<SigBit>) returns (wires: seq<SigBit>, others: seq<SigBit>)
    requires |lhs| == |rhs|
    ensures |wires| == |others| && Zip(wires, others) == WirePairs(lhs, rhs)
  {
    wires, others := [], [];
    assert Zip(wires, others) == WirePairs(lhs[..0], rhs[..0]);
    for i := 0 to |lhs|
      invariant |wires| == |others| && Zip(wires, others) == WirePairs(lhs[..i], rhs[..i])
    {
      WirePairsMore(lhs, rhs, i);
      if lhs[i].WireBit? {
        assert Zip(wires + [lhs[i]], others + [rhs[i]]) == Zip(wires, others) + [(lhs[i], rhs[i])];
        wires, others := wires + [lhs[i]], others + [rhs[i]];
      }
    }
    assert lhs[..|lhs|] == lhs && rhs[..|rhs|] == rhs;
  }

  lemma WirePairsMore(lhs: seq<SigBit>, rhs: seq<SigBit>, i: nat)
    requires |lhs| == |rhs| && i < |lhs|
    ensures WirePairs(lhs[..i + 1], rhs[..i + 1]) ==
            WirePairs(lhs[..i], rhs[..i]) + if lhs[i].WireBit? then [(lhs[i], rhs[i])] else []
  {
    assert lhs[..i + 1][..i] == lhs[..i] && rhs[..i + 1][..i] == rhs[..i];
  }

  lemma {:induction false} WirePairsAll(lhs: seq<SigBit>, rhs: seq<SigBit>)
    requires |lhs| == |rhs| && !HasConst(lhs)
    ensures WirePairs(lhs, rhs) == Zip(lhs, rhs)
  {
    if |lhs| > 0 {
      var n := |lhs| - 1;
      WirePairsAll(lhs[..n], rhs[..n]);
      assert lhs[n].WireBit?;
      assert Zip(lhs, rhs) == Zip(lhs[..n], rhs[..n]) + [(lhs[n], rhs[n])];
    }
  }

  lemma NetsStart()
    ensures forall x :: Nets([])(x) == x
  {
  }

  lemma NoCells()
    ensures Pins(map[]) == imap[]
  {
  }

  lemma CellAdded(cells: map<(nat, nat), seq<SigBit>>, key: (nat, nat), sig: seq<SigBit>)
    requires key !in cells
    ensures Free(Pins(cells), key.0, key.1) &&
        PinsWith(Pins(cells), key.0, key.1, sig, |sig|) == Pins(cells[key := sig])
  {
    PinsRemoved(cells, key.0, key.1);
    PinsSet(cells, key.0, key.1, sig);
    assert cells - {(key.0, key.1)} == cells;
  }

  // ---------------------------------------------------------------- answers

  /** What is said about a bit is right for its net; nothing is said about nets with a constant. */
  ghost predicate Answers(info: SigBitInfo, m: Module, net: SigBit -> SigBit, bit: SigBit) {
    if net(bit).WireBit? then Right(info, Pins(m.cells), m.inputs, m.outputs, net, net(bit)) else info == EMPTY
  }

  lemma AnswersMean(said: SigBitInfo, m: Module, bit: SigBit)
    requires Answers(said, m, Nets(m.conns), bit)
    ensures var r := Net(m.conns, bit);
            if r.ConstBit? then said == SigBitInfo(false, false, {})
            else
              && (said.isInput <==> exists b :: b in m.inputs && Net(m.conns, b) == r)
              && (said.isOutput <==> exists b :: b in m.outputs && Net(m.conns, b) == r)
              && forall cell: nat, port: nat, i: nat ::
                   PortInfo(cell, port, i) in said.ports <==>
                     && (cell, port) in m.cells && i < |m.cells[(cell, port)]|
                     && Net(m.conns, m.cells[(cell, port)][i]) == r
  {
    hide Net;
    var net, r := Nets(m.conns), Net(m.conns, bit);
    if r.WireBit? {
      assert Right(said, Pins(m.cells), m.inputs, m.outputs, net, r);
      forall cell: nat, port: nat, i: nat
        ensures OnNet(Pins(m.cells), net, r, PortInfo(cell, port, i)) <==>
                  && (cell, port) in m.cells && i < |m.cells[(cell, port)]|
                  && Net(m.conns, m.cells[(cell, port)][i]) == r
      {
      }
    }
  }

  lemma RightUnique(x: SigBitInfo, y: SigBitInfo, pins: imap<PortInfo, SigBit>, ins: set<SigBit>, outs: set<SigBit>,
      net: SigBit -> SigBit, r: SigBit)
    requires Right(x, pins, ins, outs, net, r) && Right(y, pins, ins, outs, net, r)
    ensures x == y
  {
    assert x.ports == y.ports;
  }

  /** There is only one right answer, so an index kept up to date agrees with one built from scratch. */
  lemma AnswerUnique(x: SigBitInfo, y: SigBitInfo, m: Module, net: SigBit -> SigBit, bit: SigBit)
    requires Answers(x, m, net, bit) && Answers(y, m, net, bit)
    ensures x == y
  {
    if net(bit).WireBit? { RightUnique(x, y, Pins(m.cells), m.inputs, m.outputs, net, net(bit)); }
  }

  /** Nets that are alike have the same right answers. */
  lemma AlikeAnswers(info: SigBitInfo, m: Module, net: SigBit -> SigBit, net': SigBit -> SigBit, bit: SigBit)
    requires Alike(net, net')
    ensures Answers(info, m, net, bit) <==> Answers(info, m, net', bit)
  {
    hide Right;
    if net(bit).WireBit? {
      RightCarried(info, m, net, net', net(bit));
      RightCarried(info, m, net', net, net(bit));
    }
  }

  lemma RightCarried(info: SigBitInfo, m: Module, net: SigBit -> SigBit, net': SigBit -> SigBit, r: SigBit)
    requires forall z :: net'(z) == r <==> net(z) == r
    ensures Right(info, Pins(m.cells), m.inputs, m.outputs, net, r) ==>
        Right(info, Pins(m.cells), m.inputs, m.outputs, net', r)
  {
    assert Union(net, net', r, r, r);
    if Right(info, Pins(m.cells), m.inputs, m.outputs, net, r) {
      RightJoined(info, info, Pins(m.cells), m.inputs, m.outputs, net, net', r, r, r);
      assert MergeInfo(info, info) == info;
    }
  }

  /** A module input driven onto a constant loses its entry although the module has not changed. */
  lemma ConstantLeftBreaks()
    ensures var w := WireBit(0, 0); var m := Module({w}, {}, map[], []);
      !Answers(EMPTY, m, Nets(m.conns), w) && Answers(EMPTY, m, Nets(m.conns + [(ConstBit(0), w)]), w)
  {
    var w := WireBit(0, 0);
    var m := Module({w}, {}, map[], []);
    NetsMore(m.conns, ConstBit(0), w, w);
    assert Nets(m.conns)(w) == w && AnyOn(m.inputs, Nets(m.conns), w);
    assert !Answers(EMPTY, m, Nets(m.conns), w);
    assert Answers(EMPTY, m, Nets(m.conns + [(ConstBit(0), w)]), w);
  }

  // ---------------------------------------------------------------- constants on the left

  /** The pairs the index is told about when two signals are connected: all of them, and once more those that are kept.
      */
  function Told(lhs: seq<SigBit>, rhs: seq<SigBit>): seq<(SigBit, SigBit)>
    requires |lhs| == |rhs|
  {
    Zip(lhs, rhs) + if HasConst(lhs) then WirePairs(lhs, rhs) else []
  }

  /** Every bit across from a constant is on a constant net of the module anyway. */
  ghost predicate Harmless(conns: seq<(SigBit, SigBit)>, lhs: seq<SigBit>, rhs: seq<SigBit>)
    requires |lhs| == |rhs|
  {
    forall i :: 0 <= i < |lhs| && lhs[i].ConstBit? ==> Net(conns, rhs[i]).ConstBit?
  }

  lemma {:induction false} NetLater(conns: seq<(SigBit, SigBit)>, more: seq<(SigBit, SigBit)>, x: SigBit, y: SigBit)
    ensures Net(conns, x).ConstBit? ==> Net(conns + more, x) == Net(conns, x)
    ensures Net(conns, x) == Net(conns, y) ==> Net(conns + more, x) == Net(conns + more, y)
  {
    if more == [] {
      assert conns + more == conns;
    } else {
      var n, p := |more| - 1, more[|more| - 1];
      NetLater(conns, more[..n], x, y);
      assert conns + more == conns + more[..n] + [p];
      NetsMore(conns + more[..n], p.0, p.1, x);
      NetsMore(conns + more[..n], p.0, p.1, y);
    }
  }

  lemma {:induction false} AlikeLater(seen: seq<(SigBit, SigBit)>, conns: seq<(SigBit, SigBit)>,
      more: seq<(SigBit, SigBit)>)
    requires Alike(Nets(seen), Nets(conns))
    ensures Alike(Nets(seen + more), Nets(conns + more))
  {
    if more == [] {
      assert seen + more == seen && conns + more == conns;
    } else {
      var n, p := |more| - 1, more[|more| - 1];
      AlikeLater(seen, conns, more[..n]);
      assert seen + more == seen + more[..n] + [p] && conns + more == conns + more[..n] + [p];
      AlikeJoined(seen + more[..n], conns + more[..n], p.0, p.1);
    }
  }

  lemma AlikeJoined(seen: seq<(SigBit, SigBit)>, conns: seq<(SigBit, SigBit)>, a: SigBit, b: SigBit)
    requires Alike(Nets(seen), Nets(conns))
    ensures Alike(Nets(seen + [(a, b)]), Nets(conns + [(a, b)]))
  {
    hide Net;
    forall x
      ensures var n, n' := Net(seen + [(a, b)], x), Net(conns + [(a, b)], x); n == n' || (n.ConstBit? && n'.ConstBit?)
    {
      NetsMore(seen, a, b, x);
      NetsMore(conns, a, b, x);
      assert forall y :: Nets(seen)(y) == Net(seen, y) && Nets(conns)(y) == Net(conns, y);
    }
  }

  predicate Agree(n: SigBit, n': SigBit) {
    n == n' || (n.ConstBit? && n'.ConstBit?)
  }

  /** While the pairs are being told: the index is ahead of the module only on nets that will be constant in the end. */
  ghost predicate Ahead(now: SigBit -> SigBit, net: SigBit -> SigBit, end: SigBit -> SigBit) {
    && (forall x :: now(x) == net(x) || (now(x).ConstBit? && end(x).ConstBit?))
    && (forall x, y :: net(x) == net(y) && net(x).WireBit? ==> Agree(now(x), now(y)))
  }

  /** What the final nets keep of those on the way. */
  ghost predicate Leads(net: SigBit -> SigBit, end: SigBit -> SigBit) {
    && (forall x :: net(x).ConstBit? ==> end(x).ConstBit?)
    && (forall x, y :: net(x) == net(y) ==> end(x) == end(y))
  }

  lemma AheadFor(now: SigBit -> SigBit, net: SigBit -> SigBit, end: SigBit -> SigBit, x: SigBit, y: SigBit)
    requires Ahead(now, net, end)
    ensures now(x) == net(x) || (now(x).ConstBit? && end(x).ConstBit?)
    ensures net(x) == net(y) && net(x).WireBit? ==> Agree(now(x), now(y))
  {
  }

  lemma LeadsFor(net: SigBit -> SigBit, end: SigBit -> SigBit, x: SigBit, y: SigBit)
    requires Leads(net, end)
    ensures (net(x).ConstBit? ==> end(x).ConstBit?) && (net(x) == net(y) ==> end(x) == end(y))
  {
  }

  lemma LeadsTo(conns: seq<(SigBit, SigBit)>, more: seq<(SigBit, SigBit)>)
    ensures Leads(Nets(conns), Nets(conns + more))
  {
    hide Net;
    forall x, y ensures Net(conns, x).ConstBit? ==> Net(conns + more, x).ConstBit?
      ensures Net(conns, x) == Net(conns, y) ==> Net(conns + more, x) == Net(conns + more, y)
    {
      NetLater(conns, more, x, y);
    }
  }

  /** A pair that is kept. */
  lemma AheadJoined(now: SigBit -> SigBit, net: SigBit -> SigBit, end: SigBit -> SigBit, a: SigBit, b: SigBit)
    requires Ahead(now, net, end) && Leads(net, end) && Leads(JoinNets(net, a, b), end)
    ensures Ahead(JoinNets(now, a, b), JoinNets(net, a, b), end)
  {
    var now', net' := JoinNets(now, a, b), JoinNets(net, a, b);
    assert Ahead(now', net', end) by {
      hide Ahead, Leads, Agree, Joined;
      forall x ensures now'(x) == net'(x) || (now'(x).ConstBit? && end(x).ConstBit?) {
        AheadStep(now, net, end, a, b, x);
      }
      forall x, y | net'(x) == net'(y) && net'(x).WireBit? ensures Agree(now'(x), now'(y)) {
        AheadTogether(now, net, end, a, b, x, y);
      }
      AheadPoints(now', net', end);
    }
  }

  lemma AheadPoints(now: SigBit -> SigBit, net: SigBit -> SigBit, end: SigBit -> SigBit)
    requires forall x :: now(x) == net(x) || (now(x).ConstBit? && end(x).ConstBit?)
    requires forall x, y :: net(x) == net(y) && net(x).WireBit? ==> Agree(now(x), now(y))
    ensures Ahead(now, net, end)
  {
  }

  lemma AheadStep(now: SigBit -> SigBit, net: SigBit -> SigBit, end: SigBit -> SigBit, a: SigBit, b: SigBit, x: SigBit)
    requires Ahead(now, net, end) && Leads(net, end) && Leads(JoinNets(net, a, b), end)
    ensures var n := JoinNets(now, a, b)(x); n == JoinNets(net, a, b)(x) || (n.ConstBit? && end(x).ConstBit?)
  {
    hide Ahead, Leads, Joined, Agree;
    AheadFor(now, net, end, a, x);
    AheadFor(now, net, end, b, x);
    AheadFor(now, net, end, x, x);
    LeadsFor(net, end, a, x);
    LeadsFor(net, end, b, x);
    LeadsFor(net, end, x, x);
    LeadsFor(JoinNets(net, a, b), end, a, b);
    JoinedMeet(net(a), net(b));
    JoinAhead(now(a), now(b), now(x), net(a), net(b), net(x), end(a), end(b), end(x));
  }

  lemma JoinedMeet(a: SigBit, b: SigBit)
    ensures a.WireBit? || b.WireBit? ==> Joined(a, b, a) == Joined(a, b, b)
  {
  }

  /** Joining on both sides, for one bit `x`: `n` is what the index says, `t` the module, `e` the module in the end. */
  lemma JoinAhead(na: SigBit, nb: SigBit, nx: SigBit, ta: SigBit, tb: SigBit, tx: SigBit, ea: SigBit, eb: SigBit,
      ex: SigBit)
    requires na == ta || (na.ConstBit? && ea.ConstBit?)
    requires nb == tb || (nb.ConstBit? && eb.ConstBit?)
    requires nx == tx || (nx.ConstBit? && ex.ConstBit?)
    requires (ta == tx && ta.WireBit? ==> Agree(na, nx)) && (tb == tx && tb.WireBit? ==> Agree(nb, nx))
    requires (ta == tx ==> ea == ex) && (tb == tx ==> eb == ex) && (ta.WireBit? || tb.WireBit? ==> ea == eb) &&
        (tx.ConstBit? ==> ex.ConstBit?)
    ensures var n := Joined(na, nb, nx); n == Joined(ta, tb, tx) || (n.ConstBit? && ex.ConstBit?)
  {
    if nx.ConstBit? {
      ConstantStays(na, nb, nx);
      if nx == tx { ConstantStays(ta, tb, tx); }
    } else if nx == na {
      assert ta == na == tx;
    } else if nx == nb {
      assert tb == nb == tx;
    } else {
      assert tx != ta && tx != tb;
    }
  }

  lemma ConstantStays(a: SigBit, b: SigBit, x: SigBit)
    requires x.ConstBit?
    ensures Joined(a, b, x) == x
  {
  }

  lemma AheadTogether(now: SigBit -> SigBit, net: SigBit -> SigBit, end: SigBit -> SigBit, a: SigBit, b: SigBit,
      x: SigBit, y: SigBit)
    requires Ahead(now, net, end) && JoinNets(net, a, b)(x) == JoinNets(net, a, b)(y) && JoinNets(net, a, b)(x).WireBit?
    ensures Agree(JoinNets(now, a, b)(x), JoinNets(now, a, b)(y))
  {
    hide Ahead, Joined, Agree;
    AheadFor(now, net, end, x, y);
    AheadFor(now, net, end, x, a);
    AheadFor(now, net, end, x, b);
    AheadFor(now, net, end, y, a);
    AheadFor(now, net, end, y, b);
    JoinTogether(now(a), now(b), now(x), now(y), net(a), net(b), net(x), net(y));
  }

  lemma JoinTogether(na: SigBit, nb: SigBit, nx: SigBit, ny: SigBit, ta: SigBit, tb: SigBit, tx: SigBit, ty: SigBit)
    requires Joined(ta, tb, tx) == Joined(ta, tb, ty) && Joined(ta, tb, tx).WireBit?
    requires tx == ty && tx.WireBit? ==> Agree(nx, ny)
    requires (tx == ta && tx.WireBit? ==> Agree(nx, na)) && (tx == tb && tx.WireBit? ==> Agree(nx, nb))
    requires (ty == ta && ty.WireBit? ==> Agree(ny, na)) && (ty == tb && ty.WireBit? ==> Agree(ny, nb))
    ensures Agree(Joined(na, nb, nx), Joined(na, nb, ny))
  {
    assert tx.WireBit? && ty.WireBit?;
    if tx == ty {
      AgreeJoined(na, nb, nx, ny);
    } else {
      assert {tx, ty} == {ta, tb};
      JoinedMeet(na, nb);
      if tx == ta {
        AgreeJoined(na, nb, nx, na);
        AgreeJoined(na, nb, ny, nb);
      } else {
        AgreeJoined(na, nb, nx, nb);
        AgreeJoined(na, nb, ny, na);
      }
    }
  }

  lemma AgreeJoined(a: SigBit, b: SigBit, x: SigBit, y: SigBit)
    requires Agree(x, y)
    ensures Agree(Joined(a, b, x), Joined(a, b, y))
  {
    if x.ConstBit? && y.ConstBit? { ConstantStays(a, b, x); ConstantStays(a, b, y); }
  }

  /** A pair with a constant on the left, which is not kept. */
  lemma AheadConstant(now: SigBit -> SigBit, net: SigBit -> SigBit, end: SigBit -> SigBit, c: SigBit, b: SigBit)
    requires Ahead(now, net, end) && Leads(net, end) && now(c) == c && c.ConstBit? && end(b).ConstBit?
    ensures Ahead(JoinNets(now, c, b), net, end)
  {
    hide Ahead, Leads, Joined;
    var now' := JoinNets(now, c, b);
    forall x ensures now'(x) == net(x) || (now'(x).ConstBit? && end(x).ConstBit?) {
      ConstantStep(now, net, end, c, b, x, x);
    }
    forall x, y | net(x) == net(y) && net(x).WireBit? ensures Agree(now'(x), now'(y)) {
      ConstantStep(now, net, end, c, b, x, y);
    }
    AheadPoints(now', net, end);
  }

  lemma ConstantStep(now: SigBit -> SigBit, net: SigBit -> SigBit, end: SigBit -> SigBit, c: SigBit, b: SigBit,
      x: SigBit, y: SigBit)
    requires Ahead(now, net, end) && Leads(net, end) && now(c) == c && c.ConstBit? && end(b).ConstBit?
    ensures var n := JoinNets(now, c, b)(x); n == net(x) || (n.ConstBit? && end(x).ConstBit?)
    ensures net(x) == net(y) && net(x).WireBit? ==> Agree(JoinNets(now, c, b)(x), JoinNets(now, c, b)(y))
  {
    hide Ahead, Leads;
    AheadFor(now, net, end, x, y);
    AheadFor(now, net, end, b, x);
    LeadsFor(net, end, b, x);
    LeadsFor(net, end, x, b);
  }

  ghost predicate AheadAt(known: seq<(SigBit, SigBit)>, conns: seq<(SigBit, SigBit)>, lhs: seq<SigBit>,
      rhs: seq<SigBit>, i: nat)
    requires |lhs| == |rhs| && i <= |lhs|
  {
    Ahead(Nets(known + Zip(lhs[..i], rhs[..i])), Nets(conns + WirePairs(lhs[..i], rhs[..i])),
        Nets(conns + WirePairs(lhs, rhs)))
  }

  lemma {:induction false} WirePairsPrefix(lhs: seq<SigBit>, rhs: seq<SigBit>,
      i: nat) returns (rest: seq<(SigBit, SigBit)>)
    requires |lhs| == |rhs| && i <= |lhs|
    ensures WirePairs(lhs, rhs) == WirePairs(lhs[..i], rhs[..i]) + rest
  {
    if i == |lhs| {
      rest := [];
      assert lhs[..i] == lhs && rhs[..i] == rhs;
    } else {
      var n := |lhs| - 1;
      rest := WirePairsPrefix(lhs[..n], rhs[..n], i);
      assert lhs[..n][..i] == lhs[..i] && rhs[..n][..i] == rhs[..i];
      rest := rest + if lhs[n].WireBit? then [(lhs[n], rhs[n])] else [];
    }
  }

  lemma LeadsAt(conns: seq<(SigBit, SigBit)>, lhs: seq<SigBit>, rhs: seq<SigBit>, i: nat)
    requires |lhs| == |rhs| && i <= |lhs|
    ensures Leads(Nets(conns + WirePairs(lhs[..i], rhs[..i])), Nets(conns + WirePairs(lhs, rhs)))
  {
    hide Leads, Nets, WirePairs;
    var rest := WirePairsPrefix(lhs, rhs, i);
    assert conns + WirePairs(lhs, rhs) == conns + WirePairs(lhs[..i], rhs[..i]) + rest;
    LeadsTo(conns + WirePairs(lhs[..i], rhs[..i]), rest);
  }

  lemma AheadNext(known: seq<(SigBit, SigBit)>, conns: seq<(SigBit, SigBit)>, lhs: seq<SigBit>, rhs: seq<SigBit>,
      i: nat)
    requires |lhs| == |rhs| && i < |lhs| && AheadAt(known, conns, lhs, rhs, i)
    requires Harmless(conns + WirePairs(lhs, rhs), lhs, rhs)
    ensures AheadAt(known, conns, lhs, rhs, i + 1)
  {
    hide Net, Ahead, Leads, WirePairs, JoinNets;
    var seen, kept, end := known + Zip(lhs[..i], rhs[..i]), conns + WirePairs(lhs[..i], rhs[..i]),
        Nets(conns + WirePairs(lhs, rhs));
    var a, b := lhs[i], rhs[i];
    assert known + Zip(lhs[..i + 1], rhs[..i + 1]) == seen + [(a, b)];
    WirePairsMore(lhs, rhs, i);
    LeadsAt(conns, lhs, rhs, i);
    LeadsAt(conns, lhs, rhs, i + 1);
    NetsJoin(seen, a, b);
    if a.WireBit? {
      assert conns + WirePairs(lhs[..i + 1], rhs[..i + 1]) == kept + [(a, b)];
      NetsJoin(kept, a, b);
      LeadsSame(Nets(kept + [(a, b)]), JoinNets(Nets(kept), a, b), end);
      AheadJoined(Nets(seen), Nets(kept), end, a, b);
      AheadSame(JoinNets(Nets(seen), a, b), Nets(seen + [(a, b)]), JoinNets(Nets(kept), a, b), Nets(kept + [(a, b)]),
          end);
    } else {
      assert conns + WirePairs(lhs[..i + 1], rhs[..i + 1]) == kept;
      NetFacts(seen, a);
      AheadConstant(Nets(seen), Nets(kept), end, a, b);
      AheadSame(JoinNets(Nets(seen), a, b), Nets(seen + [(a, b)]), Nets(kept), Nets(kept), end);
    }
  }

  lemma LeadsSame(net: SigBit -> SigBit, net': SigBit -> SigBit, end: SigBit -> SigBit)
    requires Leads(net, end) && forall x :: net'(x) == net(x)
    ensures Leads(net', end)
  {
  }

  lemma AheadSame(now: SigBit -> SigBit, now': SigBit -> SigBit, net: SigBit -> SigBit, net': SigBit -> SigBit,
      end: SigBit -> SigBit)
    requires Ahead(now, net, end) && (forall x :: now(x) == now'(x)) && forall x :: net(x) == net'(x)
    ensures Ahead(now', net', end)
  {
  }

  lemma {:induction false} AheadTo(known: seq<(SigBit, SigBit)>, conns: seq<(SigBit, SigBit)>, lhs: seq<SigBit>,
      rhs: seq<SigBit>, i: nat)
    requires |lhs| == |rhs| && i <= |lhs| && Alike(Nets(known), Nets(conns)) &&
        Harmless(conns + WirePairs(lhs, rhs), lhs, rhs)
    ensures AheadAt(known, conns, lhs, rhs, i)
  {
    hide Harmless, Net;
    if i == 0 {
      assert known + Zip(lhs[..0], rhs[..0]) == known && conns + WirePairs(lhs[..0], rhs[..0]) == conns;
      LeadsAt(conns, lhs, rhs, 0);
    } else {
      AheadTo(known, conns, lhs, rhs, i - 1);
      AheadNext(known, conns, lhs, rhs, i - 1);
    }
  }

  /** Making a connection again changes nothing. */
  lemma {:induction false} TwiceSame(conns: seq<(SigBit, SigBit)>, pairs: seq<(SigBit, SigBit)>, n: nat, x: SigBit)
    requires n <= |pairs|
    ensures Net(conns + pairs + pairs[..n], x) == Net(conns + pairs, x)
  {
    if n == 0 {
      assert conns + pairs + pairs[..0] == conns + pairs;
    } else {
      var p, before := pairs[n - 1], conns + pairs[..n - 1];
      assert conns + pairs + pairs[..n] == conns + pairs + pairs[..n - 1] + [p];
      NetsMore(conns + pairs + pairs[..n - 1], p.0, p.1, x);
      TwiceSame(conns, pairs, n - 1, x);
      TwiceSame(conns, pairs, n - 1, p.0);
      TwiceSame(conns, pairs, n - 1, p.1);
      assert conns + pairs == before + [p] + pairs[n..];
      NetsMore(before, p.0, p.1, p.0);
      NetsMore(before, p.0, p.1, p.1);
      NetLater(before + [p], pairs[n..], p.0, p.1);
      NetLater(before + [p], pairs[n..], p.1, p.0);
    }
  }

  lemma HarmlessAlike(known: seq<(SigBit, SigBit)>, conns: seq<(SigBit, SigBit)>, lhs: seq<SigBit>, rhs: seq<SigBit>)
    requires |lhs| == |rhs| && Alike(Nets(known), Nets(conns)) && Harmless(conns + WirePairs(lhs, rhs), lhs, rhs)
    ensures Alike(Nets(known + Told(lhs, rhs)), Nets(conns + WirePairs(lhs, rhs)))
  {
    hide Net, WirePairs, Alike, Harmless, Ahead, Leads;
    var wires := WirePairs(lhs, rhs);
    AheadTo(known, conns, lhs, rhs, |lhs|);
    assert lhs[..|lhs|] == lhs && rhs[..|rhs|] == rhs;
    AheadEnds(Nets(known + Zip(lhs, rhs)), Nets(conns + wires));
    if HasConst(lhs) {
      AlikeLater(known + Zip(lhs, rhs), conns + wires, wires);
      assert known + Told(lhs, rhs) == known + Zip(lhs, rhs) + wires && wires[..|wires|] == wires;
      forall x ensures Nets(conns + wires + wires)(x) == Nets(conns + wires)(x) { TwiceSame(conns, wires, |wires|, x); }
      AlikeSame(Nets(known + Told(lhs, rhs)), Nets(conns + wires + wires), Nets(conns + wires));
    } else {
      assert known + Told(lhs, rhs) == known + Zip(lhs, rhs);
    }
  }

  lemma AheadEnds(now: SigBit -> SigBit, end: SigBit -> SigBit)
    requires Ahead(now, end, end)
    ensures Alike(now, end)
  {
  }

  lemma AlikeSame(now: SigBit -> SigBit, net: SigBit -> SigBit, net': SigBit -> SigBit)
    requires Alike(now, net) && forall x :: net(x) == net'(x)
    ensures Alike(now, net')
  {
  }

  lemma AlikeFor(seen: seq<(SigBit, SigBit)>, conns: seq<(SigBit, SigBit)>, x: SigBit)
    requires Alike(Nets(seen), Nets(conns))
    ensures Agree(Net(seen, x), Net(conns, x))
  {
    assert Nets(seen)(x) == Nets(conns)(x) || (Nets(seen)(x).ConstBit? && Nets(conns)(x).ConstBit?);
  }

  /** What the index knows after a connection is what the module keeps exactly when it is harmless. */
  lemma ToldAlike(known: seq<(SigBit, SigBit)>, conns: seq<(SigBit, SigBit)>, lhs: seq<SigBit>, rhs: seq<SigBit>)
    requires |lhs| == |rhs| && Alike(Nets(known), Nets(conns))
    ensures Alike(Nets(known + Told(lhs, rhs)), Nets(conns + WirePairs(lhs, rhs))) <==>
        Harmless(conns + WirePairs(lhs, rhs), lhs, rhs)
  {
    hide Net, WirePairs, Alike, Told, Nets;
    var kept, told := conns + WirePairs(lhs, rhs), known + Told(lhs, rhs);
    if Harmless(kept, lhs, rhs) { HarmlessAlike(known, conns, lhs, rhs); }
    if Alike(Nets(told), Nets(kept)) {
      forall i | 0 <= i < |lhs| && lhs[i].ConstBit? ensures Net(kept, rhs[i]).ConstBit? {
        ToldConstant(known, lhs, rhs, i);
        AlikeFor(told, kept, rhs[i]);
      }
    }
  }

  lemma ToldConstant(known: seq<(SigBit, SigBit)>, lhs: seq<SigBit>, rhs: seq<SigBit>, i: nat)
    requires |lhs| == |rhs| && i < |lhs| && lhs[i].ConstBit?
    ensures Net(known + Told(lhs, rhs), rhs[i]).ConstBit?
  {
    hide Net;
    var told, before := Told(lhs, rhs), known + Zip(lhs[..i], rhs[..i]);
    var rest := told[i + 1..];
    assert told[..i] == Zip(lhs[..i], rhs[..i]) && told[i] == (lhs[i], rhs[i]);
    assert known + told == before + [(lhs[i], rhs[i])] + rest;
    NetsMore(before, lhs[i], rhs[i], rhs[i]);
    NetFacts(before, lhs[i]);
    NetLater(before + [(lhs[i], rhs[i])], rest, rhs[i], rhs[i]);
  }

  /** The answers of the index are right now and after whatever is connected and put on cell ports later, exactly when
      the connection was harmless. */
  lemma ConstantOnTheLeft(m: Module, known: seq<(SigBit, SigBit)>, lhs: seq<SigBit>, rhs: seq<SigBit>)
    requires |lhs| == |rhs| && Alike(Nets(known), Nets(m.conns))
    ensures var kept, told := m.conns + WirePairs(lhs, rhs), known + Told(lhs, rhs);
      (forall more, cells, x, info :: AnswersAlike(m, kept, told, more, cells, x, info)) <==> Harmless(kept, lhs, rhs)
  {
    hide Net, WirePairs, Answers, Told;
    var kept, told := m.conns + WirePairs(lhs, rhs), known + Told(lhs, rhs);
    ToldAlike(known, m.conns, lhs, rhs);
    if Harmless(kept, lhs, rhs) {
      forall more, cells, x, info ensures AnswersAlike(m, kept, told, more, cells, x, info) {
        AlikeLater(told, kept, more);
        AlikeAnswers(info, m.(cells := cells, conns := kept + more), Nets(told + more), Nets(kept + more), x);
      }
    } else {
      var i :| 0 <= i < |lhs| && lhs[i].ConstBit? && Net(kept, rhs[i]).WireBit?;
      ToldConstant(known, lhs, rhs, i);
      PinMissed(m, kept, told, rhs[i]);
    }
  }

  ghost predicate AnswersAlike(m: Module, kept: seq<(SigBit, SigBit)>, told: seq<(SigBit, SigBit)>,
      more: seq<(SigBit, SigBit)>,
                               cells: map<(nat, nat), seq<SigBit>>, x: SigBit, info: SigBitInfo)
  {
    var m' := m.(cells := cells, conns := kept + more);
    Answers(info, m', Nets(told + more), x) <==> Answers(info, m', Nets(kept + more), x)
  }

  /** A pin put on a bit that only the index takes for a constant is missed. */
  lemma PinMissed(m: Module, kept: seq<(SigBit, SigBit)>, told: seq<(SigBit, SigBit)>, w: SigBit)
    requires Net(told, w).ConstBit? && Net(kept, w).WireBit?
    ensures !AnswersAlike(m, kept, told, [], map[(0, 0) := [w]], w, EMPTY)
  {
    var cells := map[(0, 0) := [w]];
    var pin := PortInfo(0, 0, 0);
    assert told + [] == told && kept + [] == kept;
    assert pin in Pins(cells) && Pins(cells)[pin] == w;
    assert OnNet(Pins(cells), Nets(kept), Net(kept, w), pin);
  }
}
