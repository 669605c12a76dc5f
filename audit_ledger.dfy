/** The on-chain `AuditStorage` ledger, as its acceptance tests pin it down: per sender, a
    map from code hash to (locator, timestamp) and the list of hashes that sender has
    written, each listed once. Writes bind to the transaction sender; reads are open. */
module AuditLedger {

  const AddressBound: nat := 0x1_0000_0000_0000_0000_0000_0000_0000_0000_0000_0000
  const WordBound: nat := 0x1_0000_0000_0000_0000_0000_0000_0000_0000_0000_0000_0000_0000_0000_0000_0000_0000

  /** A 160-bit account address. */
  type Address = a: nat | a < AddressBound

  /** A `bytes32` code hash. */
  type CodeHash = h: nat | h < WordBound

  /** One stored audit: where the report lives and the time of the block that wrote it. */
  datatype Audit = Audit(locator: string, timestamp: nat)

  /** What `getAudit` returns for a pair nobody wrote: an empty locator and a zero time. */
  const Unset := Audit("", 0)

  /** Everything the contract keeps for one sender. */
  datatype Account = Account(audits: map<CodeHash, Audit>, hashes: seq<CodeHash>)

  const EmptyAccount := Account(map[], [])

  /** The contract's storage. An address that never wrote has no account. */
  type Ledger = map<Address, Account>

  function AccountOf(l: Ledger, who: Address): Account
  {
    if who in l then l[who] else EmptyAccount
  }

  /** `getAudit(who, h)`. */
  function Lookup(l: Ledger, who: Address, h: CodeHash): Audit
  {
    var a := AccountOf(l, who);
    if h in a.audits then a.audits[h] else Unset
  }

  /** `getAuditedCodeHashes(who)`. */
  function HashesOf(l: Ledger, who: Address): seq<CodeHash>
  {
    AccountOf(l, who).hashes
  }

  predicate NoDuplicates<T(==)>(s: seq<T>)
  {
    forall i, j :: 0 <= i < j < |s| ==> s[i] != s[j]
  }

  /** The hash list has no duplicates and lists exactly the hashes with an entry; every
      entry was written by a block after genesis and no later than `now`. */
  ghost predicate AccountValid(a: Account, now: nat)
  {
    && NoDuplicates(a.hashes)
    && (forall h :: h in a.hashes <==> h in a.audits)
    && (forall h :: h in a.audits ==> 0 < a.audits[h].timestamp <= now)
  }

  ghost predicate LedgerValid(l: Ledger, now: nat)
  {
    forall who :: who in l ==> AccountValid(l[who], now)
  }

  /** `storeAudit(h, locator)` sent by `sender` in a block with timestamp `at`: overwrite the
      sender's entry for `h` and list `h` once in the sender's hash list. */
  function Store(l: Ledger, sender: Address, h: CodeHash, locator: string, at: nat): (r: Ledger)
    ensures Lookup(r, sender, h) == Audit(locator, at)
    ensures forall who, g :: (who != sender || g != h) ==> Lookup(r, who, g) == Lookup(l, who, g)
    ensures forall who :: who != sender ==> AccountOf(r, who) == AccountOf(l, who)
    ensures h in HashesOf(r, sender)
  {
    var a := AccountOf(l, sender);
    var hashes := if h in a.hashes then a.hashes else a.hashes + [h];
    l[sender := Account(a.audits[h := Audit(locator, at)], hashes)]
  }

  /** A write in a later block keeps the ledger well formed. */
  lemma StorePreservesValid(l: Ledger, now: nat, sender: Address, h: CodeHash, locator: string, at: nat)
    requires LedgerValid(l, now) && now < at
    ensures LedgerValid(Store(l, sender, h, locator, at), at)
  {
    var r := Store(l, sender, h, locator, at);
    var a := AccountOf(l, sender);
    assert AccountValid(a, now);
    var b := r[sender];
    if h !in a.hashes {
      forall i, j | 0 <= i < j < |b.hashes| ensures b.hashes[i] != b.hashes[j] {
        if j == |a.hashes| { assert b.hashes[i] == a.hashes[i]; }
      }
    }
    assert AccountValid(b, at);
    forall who | who in r ensures AccountValid(r[who], at) {
      if who != sender { assert AccountValid(l[who], now); }
    }
  }

  /** Writing a hash the sender already listed does not grow the list; it replaces the
      locator and, the block being later, makes the timestamp strictly larger. */
  lemma OverwriteRefreshes(l: Ledger, now: nat, sender: Address, h: CodeHash, locator: string, at: nat)
    requires LedgerValid(l, now) && now < at
    requires h in HashesOf(l, sender)
    ensures HashesOf(Store(l, sender, h, locator, at), sender) == HashesOf(l, sender)
    ensures Lookup(Store(l, sender, h, locator, at), sender, h).locator == locator
    ensures Lookup(Store(l, sender, h, locator, at), sender, h).timestamp > Lookup(l, sender, h).timestamp
  {
    assert sender in l;
    assert AccountValid(l[sender], now);
  }

  /** A second write by the same sender for the same hash supersedes the first entirely. */
  lemma LastWriteWins(l: Ledger, sender: Address, h: CodeHash, first: string, t1: nat, second: string, t2: nat)
    ensures Store(Store(l, sender, h, first, t1), sender, h, second, t2) == Store(l, sender, h, second, t2)
  {
    var a := AccountOf(l, sender);
    var once := Store(l, sender, h, first, t1);
    assert AccountOf(once, sender).audits[h := Audit(second, t2)] == a.audits[h := Audit(second, t2)];
  }

  /** The hash list of a well-formed account lists each written hash once, so its length is
      the number of entries. */
  lemma {:induction false} HashCountMatchesEntries(l: Ledger, now: nat, who: Address)
    requires LedgerValid(l, now)
    ensures |HashesOf(l, who)| == |AccountOf(l, who).audits|
  {
    var a := AccountOf(l, who);
    if who in l { assert AccountValid(l[who], now); }
    DistinctLength(a.hashes, a.audits.Keys);
  }

  lemma {:induction false} DistinctLength<T>(s: seq<T>, keys: set<T>)
    requires NoDuplicates(s)
    requires forall x :: x in s <==> x in keys
    ensures |s| == |keys|
  {
    if s != [] {
      var last := s[|s| - 1];
      var init := s[..|s| - 1];
      assert s == init + [last];
      forall x ensures x in init <==> x in keys - {last} {
        if x in init {
          var i :| 0 <= i < |init| && init[i] == x;
          assert s[i] == x;
        }
        if x in s && x != last {
          var i :| 0 <= i < |s| && s[i] == x;
          assert i < |s| - 1 && init[i] == x;
        }
      }
      DistinctLength(init, keys - {last});
    } else {
      assert keys == {};
    }
  }

  /** One transaction of a replayed history. */
  datatype Write = Write(hash: CodeHash, locator: string, at: nat)

  /** The ledger after `sender` sends `writes` in order. */
  function StoreAll(l: Ledger, sender: Address, writes: seq<Write>): Ledger
  {
    if writes == [] then l
    else
      var w := writes[|writes| - 1];
      Store(StoreAll(l, sender, writes[..|writes| - 1]), sender, w.hash, w.locator, w.at)
  }

  /** The hashes of `writes`, in order. */
  function HashesWritten(writes: seq<Write>): seq<CodeHash>
  {
    seq(|writes|, i requires 0 <= i < |writes| => writes[i].hash)
  }

  /** Writes by `sender` never change what any other address has. */
  lemma {:induction false} StoreAllIsolated(l: Ledger, sender: Address, writes: seq<Write>, other: Address)
    requires other != sender
    ensures AccountOf(StoreAll(l, sender, writes), other) == AccountOf(l, other)
  {
    if writes != [] {
      StoreAllIsolated(l, sender, writes[..|writes| - 1], other);
    }
  }

  /** A hash the sender has not listed yet goes to the end of the sender's list. */
  lemma StoreAppendsNewHash(l: Ledger, sender: Address, h: CodeHash, locator: string, at: nat)
    requires h !in HashesOf(l, sender)
    ensures HashesOf(Store(l, sender, h, locator, at), sender) == HashesOf(l, sender) + [h]
  {
  }

  /** Writing distinct new hashes appends each to the sender's list, in order. */
  lemma {:induction false} StoreAllAppends(l: Ledger, sender: Address, writes: seq<Write>)
    requires NoDuplicates(HashesWritten(writes))
    requires forall i :: 0 <= i < |writes| ==> writes[i].hash !in HashesOf(l, sender)
    ensures HashesOf(StoreAll(l, sender, writes), sender) == HashesOf(l, sender) + HashesWritten(writes)
  {
    if writes != [] {
      var n := |writes| - 1;
      var init := writes[..n];
      var w := writes[n];
      LastWriteIsNew(writes);
      EarlierWritesAreNew(HashesOf(l, sender), writes, init);
      StoreAllAppends(l, sender, init);
      var before := StoreAll(l, sender, init);
      StoreAppendsNewHash(before, sender, w.hash, w.locator, w.at);
      assert StoreAll(l, sender, writes) == Store(before, sender, w.hash, w.locator, w.at);
    }
  }

  lemma EarlierWritesAreNew(listed: seq<CodeHash>, writes: seq<Write>, init: seq<Write>)
    requires writes != [] && init == writes[..|writes| - 1]
    requires forall i :: 0 <= i < |writes| ==> writes[i].hash !in listed
    ensures forall i :: 0 <= i < |init| ==> init[i].hash !in listed
  {
    forall i | 0 <= i < |init| ensures init[i].hash !in listed {
      assert init[i] == writes[i];
    }
  }

  /** Splitting distinct written hashes at the last write. */
  lemma LastWriteIsNew(writes: seq<Write>)
    requires writes != [] && NoDuplicates(HashesWritten(writes))
    ensures NoDuplicates(HashesWritten(writes[..|writes| - 1]))
    ensures writes[|writes| - 1].hash !in HashesWritten(writes[..|writes| - 1])
    ensures HashesWritten(writes) == HashesWritten(writes[..|writes| - 1]) + [writes[|writes| - 1].hash]
  {
    var n := |writes| - 1;
    var hs := HashesWritten(writes);
    assert HashesWritten(writes[..n]) == hs[..n];
    forall i | 0 <= i < n ensures HashesWritten(writes[..n])[i] != writes[n].hash {
      assert hs[i] != hs[n];
    }
    assert hs == hs[..n] + [hs[n]];
  }

  /** When the hashes written are distinct, every write reads back its own locator and
      time afterwards: no two writes collide. */
  lemma {:induction false} StoreAllReadsBack(l: Ledger, sender: Address, writes: seq<Write>, i: nat)
    requires NoDuplicates(HashesWritten(writes))
    requires i < |writes|
    ensures Lookup(StoreAll(l, sender, writes), sender, writes[i].hash) == Audit(writes[i].locator, writes[i].at)
  {
    var n := |writes| - 1;
    var init := writes[..n];
    var w := writes[n];
    if i < n {
      assert HashesWritten(init) == HashesWritten(writes)[..n];
      StoreAllReadsBack(l, sender, init, i);
      assert writes[i] == init[i];
      assert HashesWritten(writes)[i] != HashesWritten(writes)[n];
      assert StoreAll(l, sender, writes) == Store(StoreAll(l, sender, init), sender, w.hash, w.locator, w.at);
    }
  }

  /** On a fresh deployment, `n` writes of distinct hashes leave exactly those `n` hashes
      listed, in the order written, each reading back its own locator. */
  lemma FreshLedgerListsEveryWrite(sender: Address, writes: seq<Write>)
    requires NoDuplicates(HashesWritten(writes))
    ensures HashesOf(StoreAll(map[], sender, writes), sender) == HashesWritten(writes)
    ensures |HashesOf(StoreAll(map[], sender, writes), sender)| == |writes|
    ensures forall i :: 0 <= i < |writes| ==>
      Lookup(StoreAll(map[], sender, writes), sender, writes[i].hash).locator == writes[i].locator
  {
    StoreAllAppends(map[], sender, writes);
    forall i | 0 <= i < |writes|
      ensures Lookup(StoreAll(map[], sender, writes), sender, writes[i].hash).locator == writes[i].locator
    {
      StoreAllReadsBack(map[], sender, writes, i);
    }
  }

  /** The contract instance: its storage and the time of the latest block that reached it. */
  class AuditStorage {
    var ledger: Ledger
    var blockTime: nat

    ghost predicate Valid()
      reads this
    {
      LedgerValid(ledger, blockTime)
    }

    /** A fresh deployment holds no entries. */
    constructor (deployedAt: nat)
      ensures Valid()
      ensures ledger == map[] && blockTime == deployedAt
    {
      ledger := map[];
      blockTime := deployedAt;
    }

    /** `storeAudit(codeHash, locator)` sent by `sender`, mined in a block with timestamp `at`.
        The tests run each transaction in its own block, and block times strictly increase. */
    method StoreAudit(sender: Address, codeHash: CodeHash, locator: string, at: nat)
      requires Valid() && blockTime < at
      modifies this
      ensures Valid()
      ensures ledger == Store(old(ledger), sender, codeHash, locator, at)
      ensures blockTime == at
    {
      StorePreservesValid(ledger, blockTime, sender, codeHash, locator, at);
      ledger := Store(ledger, sender, codeHash, locator, at);
      blockTime := at;
    }

    /** `getAudit(who, codeHash)`: open to every caller. An unwritten pair reads as an empty
        locator and time zero; a written one has a positive time no later than now. */
    method GetAudit(who: Address, codeHash: CodeHash) returns (locator: string, timestamp: nat)
      requires Valid()
      ensures Audit(locator, timestamp) == Lookup(ledger, who, codeHash)
      ensures timestamp == 0 <==> codeHash !in HashesOf(ledger, who)
      ensures codeHash !in HashesOf(ledger, who) ==> locator == ""
      ensures timestamp <= blockTime
    {
      if who in ledger { assert AccountValid(ledger[who], blockTime); }
      var entry := Lookup(ledger, who, codeHash);
      locator, timestamp := entry.locator, entry.timestamp;
    }

    /** `getAuditedCodeHashes(who)`: each hash `who` has written, once. */
    method GetAuditedCodeHashes(who: Address) returns (hashes: seq<CodeHash>)
      requires Valid()
      ensures hashes == HashesOf(ledger, who)
      ensures NoDuplicates(hashes)
      ensures forall h :: h in hashes <==> Lookup(ledger, who, h).timestamp > 0
    {
      if who in ledger { assert AccountValid(ledger[who], blockTime); }
      hashes := HashesOf(ledger, who);
    }
  }

  /** The loop of the "20 audits" test: `sender` writes each of `writes` in turn, in
      consecutive blocks. */
  method StoreEach(c: AuditStorage, sender: Address, writes: seq<Write>)
    requires c.Valid()
    requires writes != [] ==> c.blockTime < writes[0].at
    requires forall i :: 0 < i < |writes| ==> writes[i - 1].at < writes[i].at
    modifies c
    ensures c.Valid()
    ensures c.ledger == StoreAll(old(c.ledger), sender, writes)
    ensures c.blockTime == if writes == [] then old(c.blockTime) else writes[|writes| - 1].at
  {
    var i := 0;
    while i < |writes|
      invariant 0 <= i <= |writes|
      invariant c.Valid()
      invariant c.ledger == StoreAll(old(c.ledger), sender, writes[..i])
      invariant i > 0 ==> c.blockTime == writes[i - 1].at
      invariant i == 0 ==> c.blockTime == old(c.blockTime)
    {
      var w := writes[i];
      c.StoreAudit(sender, w.hash, w.locator, w.at);
      assert writes[..i + 1][..i] == writes[..i];
      i := i + 1;
    }
    assert writes[..i] == writes;
  }
}
