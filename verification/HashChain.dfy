/** compact_worm_ledger.py, secure_model_deployer.py and disaster_recovery_restore.py: the
    hash-chained incident ledger. Hashes are an unspecified function of the serialised record;
    where collision resistance is needed it is an explicit hypothesis. */
module HashChain {
  import opened Basics

  /** A record: its own fields, and the two chain fields, each possibly missing. */
  datatype Record = Record(fields: string, previous: Option<string>, hash: Option<string>)

  /** A record without its "hash" field: what gets signed. */
  datatype Content = Content(fields: string, previous: Option<string>)

  type Digest = Content -> string

  /** Sixty-four zeros. */
  const ZERO: string := Repeated('0', 64)

  function Repeated(c: char, n: nat): (s: string)
    ensures |s| == n && forall i :: 0 <= i < n ==> s[i] == c
  {
    seq(n, _ => c)
  }

  function Signed(r: Record): Content { Content(r.fields, r.previous) }

  function ClaimedPrevious(r: Record): string { if r.previous.None? then ZERO else r.previous.value }

  // ---- the audit ----

  predicate Intact(digest: Digest, r: Record) { r.hash == Some(digest(Signed(r))) }

  /** Record i is intact and, unless it is the first, names the hash of the one before. */
  predicate Linked(digest: Digest, records: seq<Record>, i: nat)
    requires i < |records|
  {
    Intact(digest, records[i]) && (i > 0 ==> ClaimedPrevious(records[i]) == digest(Signed(records[i - 1])))
  }

  ghost predicate Chained(digest: Digest, records: seq<Record>) {
    forall i :: 0 <= i < |records| ==> Linked(digest, records, i)
  }

  function Terminal(digest: Digest, records: seq<Record>): string {
    if |records| == 0 then ZERO else digest(Signed(records[|records| - 1]))
  }

  datatype Audit = Passed(terminal: string) | Broken(index: nat) | Tampered(index: nat)

  /** _verify_cryptographic_chain: passes exactly the chained ledgers, and otherwise names the
      first record at fault and its fault. */
  method VerifyChain(digest: Digest, records: seq<Record>) returns (audit: Audit)
    ensures audit.Passed? <==> Chained(digest, records)
    ensures audit.Passed? ==> audit.terminal == Terminal(digest, records)
    ensures !audit.Passed? ==> audit.index < |records| && Chained(digest, records[..audit.index]) && !Linked(digest, records, audit.index)
    ensures audit.Broken? ==> audit.index > 0 && ClaimedPrevious(records[audit.index]) != digest(Signed(records[audit.index - 1]))
    ensures audit.Tampered? ==> !Intact(digest, records[audit.index])
  {
    var lastSeenHash := ZERO;
    for i := 0 to |records|
      invariant Chained(digest, records[..i])
      invariant lastSeenHash == Terminal(digest, records[..i])
    {
      var record := records[i];
      var claimedHash := record.hash;
      var claimedPrev := ClaimedPrevious(record);
      if i > 0 && claimedPrev != lastSeenHash {
        assert !Linked(digest, records, i);
        return Broken(i);
      }
      var actualHash := digest(Signed(record));
      if Some(actualHash) != claimedHash {
        assert !Linked(digest, records, i);
        return Tampered(i);
      }
      lastSeenHash := actualHash;
      ChainedAppend(digest, records[..i], record);
      assert records[..i + 1] == records[..i] + [record];
    }
    assert records[..|records|] == records;
    audit := Passed(lastSeenHash);
  }

  lemma ChainedAppend(digest: Digest, records: seq<Record>, r: Record)
    requires Chained(digest, records) && Intact(digest, r)
    requires |records| > 0 ==> ClaimedPrevious(r) == Terminal(digest, records)
    ensures Chained(digest, records + [r])
  {
    var all := records + [r];
    forall i | 0 <= i < |all| ensures Linked(digest, all, i) {
      if i < |records| { assert Linked(digest, records, i); }
    }
  }

  lemma ChainedPrefix(digest: Digest, records: seq<Record>, n: nat)
    requires Chained(digest, records) && n <= |records|
    ensures Chained(digest, records[..n])
  {
    forall i | 0 <= i < n ensures Linked(digest, records[..n], i) { assert Linked(digest, records, i); }
  }

  // ---- what the terminal hash pins down ----

  ghost predicate Injective(digest: Digest) {
    forall a, b :: digest(a) == digest(b) ==> a == b
  }

  predicate IsSuffix(a: seq<Record>, b: seq<Record>) { |a| <= |b| && a == b[|b| - |a|..] }

  lemma SameHashSameRecord(digest: Digest, r: Record, q: Record)
    requires Injective(digest) && Intact(digest, r) && Intact(digest, q) && digest(Signed(r)) == digest(Signed(q))
    ensures r == q
  {
  }

  /** Two audited ledgers with one terminal hash: the shorter is the end of the longer. */
  lemma {:induction false} SameTerminalSameHistory(digest: Digest, a: seq<Record>, b: seq<Record>)
    requires Injective(digest) && Chained(digest, a) && Chained(digest, b) && 0 < |a| <= |b|
    requires Terminal(digest, a) == Terminal(digest, b)
    ensures IsSuffix(a, b)
    decreases |a|
  {
    hide Injective, Chained, Intact;
    var m, n := |a| - 1, |b| - 1;
    LastIsLinked(digest, a); LastIsLinked(digest, b);
    SameHashSameRecord(digest, a[m], b[n]);
    if m > 0 {
      ChainedPrefix(digest, a, m);
      ChainedPrefix(digest, b, n);
      SameTerminalSameHistory(digest, a[..m], b[..n]);
      SuffixGrows(a[..m], b[..n], a[m]);
      assert a == a[..m] + [a[m]] && b == b[..n] + [b[n]];
    }
  }

  lemma LastIsLinked(digest: Digest, records: seq<Record>)
    requires Chained(digest, records) && |records| > 0
    ensures Linked(digest, records, |records| - 1)
  {
  }

  lemma SuffixGrows(a: seq<Record>, b: seq<Record>, r: Record)
    requires IsSuffix(a, b)
    ensures IsSuffix(a + [r], b + [r])
  {
  }

  /** So an audited ledger of known length is determined by its terminal hash. */
  lemma TerminalDeterminesLedger(digest: Digest, a: seq<Record>, b: seq<Record>)
    requires Injective(digest) && Chained(digest, a) && Chained(digest, b) && 0 < |a| == |b|
    ensures Terminal(digest, a) == Terminal(digest, b) <==> a == b
  {
    if Terminal(digest, a) == Terminal(digest, b) { SameTerminalSameHistory(digest, a, b); }
  }

  // ---- appending and compacting ----

  /** The hash an appender finds at the end of the file. */
  function LastHash(records: seq<Record>): string {
    if |records| == 0 || records[|records| - 1].hash.None? then ZERO else records[|records| - 1].hash.value
  }

  /** A new record, chained to `previous` and signed. */
  function Sealed(digest: Digest, fields: string, previous: string): Record {
    Record(fields, Some(previous), Some(digest(Content(fields, Some(previous)))))
  }

  function Joined(archives: seq<seq<Record>>): seq<Record> {
    if |archives| == 0 then [] else Joined(archives[..|archives| - 1]) + archives[|archives| - 1]
  }

  lemma ChainedLastHash(digest: Digest, records: seq<Record>)
    requires Chained(digest, records)
    ensures LastHash(records) == Terminal(digest, records)
  {
    if |records| > 0 { assert Linked(digest, records, |records| - 1); }
  }

  lemma ChainedSuffix(digest: Digest, front: seq<Record>, back: seq<Record>)
    requires Chained(digest, front + back)
    ensures Chained(digest, back)
    ensures |back| > 0 ==> Terminal(digest, front + back) == Terminal(digest, back)
  {
    forall i | 0 <= i < |back| ensures Linked(digest, back, i) {
      assert Linked(digest, front + back, |front| + i);
    }
  }

  /** The active ledger file (absent until the first append) and the archives beside it. */
  class WormLedger {
    const digest: Digest
    const maxEntries: nat
    var active: Option<seq<Record>>
    var archives: seq<seq<Record>>

    function Records(): seq<Record>
      reads this
    {
      if active.None? then [] else active.value
    }

    /** Everything ever committed, oldest first. */
    function History(): seq<Record>
      reads this
    {
      Joined(archives) + Records()
    }

    /** All archives followed by the active ledger audit as one chain; the active ledger is empty
        only before the first commit. */
    ghost predicate Valid()
      reads this
    {
      Chained(digest, History()) && (|Records()| == 0 ==> |Joined(archives)| == 0)
    }

    constructor (digest: Digest, maxEntries: nat)
      ensures Valid() && History() == [] && active == None && this.digest == digest && this.maxEntries == maxEntries
    {
      this.digest := digest;
      this.maxEntries := maxEntries;
      active := None;
      archives := [];
    }

    /** _commit_supply_chain_violation: history grows by one record, signed and chained. */
    method Append(fields: string)
      requires Valid()
      modifies this
      ensures Valid() && archives == old(archives)
      ensures History() == old(History()) + [Sealed(digest, fields, Terminal(digest, old(History())))]
      ensures active == Some(old(Records()) + [Sealed(digest, fields, Terminal(digest, old(History())))])
      ensures History()[|old(History())|].fields == fields
      ensures State(active, archives) == After(digest, maxEntries, old(State(active, archives)), Commit(fields))
    {
      ghost var was := History();
      ChainedSuffix(digest, Joined(archives), Records());
      ChainedLastHash(digest, Records());
      var lastHash := LastHash(Records());
      assert lastHash == Terminal(digest, was);
      var incident := Sealed(digest, fields, lastHash);
      ChainedAppend(digest, was, incident);
      active := Some(Records() + [incident]);
      assert History() == was + [incident];
    }

    /** execute_compaction: below the threshold nothing happens; otherwise the audit cannot fail,
        the whole active ledger is archived, and one anchor continues the chain. */
    method Compact(anchorFields: string) returns (aborted: bool)
      requires Valid()
      modifies this
      ensures Valid() && !aborted
      ensures if old(active).None? || |old(Records())| < maxEntries then
                active == old(active) && archives == old(archives)
              else
                archives == old(archives) + [old(Records())]
                && active == Some([Sealed(digest, anchorFields, Terminal(digest, old(History())))])
                && History() == old(History()) + [Sealed(digest, anchorFields, Terminal(digest, old(History())))]
      ensures State(active, archives) == After(digest, maxEntries, old(State(active, archives)), Compaction(anchorFields))
    {
      aborted := false;
      if active.None? { return; }
      var entryCount := |active.value|;
      if entryCount < maxEntries { return; }
      ghost var was := History();
      var frozen := active.value;
      ChainedSuffix(digest, Joined(archives), frozen);
      var audit := VerifyChain(digest, frozen);
      if audit.Passed? {
        var anchor := Sealed(digest, anchorFields, audit.terminal);
        assert audit.terminal == Terminal(digest, was);
        ChainedAppend(digest, was, anchor);
        active := Some([anchor]);
        archives := archives + [frozen];
        assert archives[..|archives| - 1] == old(archives);
        assert History() == was + [anchor];
      } else {
        aborted := true;
      }
    }
  }

  // ---- every run ----

  datatype Event = Commit(fields: string) | Compaction(anchorFields: string)

  datatype State = State(active: Option<seq<Record>>, archives: seq<seq<Record>>)

  function ActiveOf(s: State): seq<Record> { if s.active.None? then [] else s.active.value }
  function HistoryOf(s: State): seq<Record> { Joined(s.archives) + ActiveOf(s) }

  /** What one event does to the files; on a failed audit compaction restores them. */
  ghost function After(digest: Digest, maxEntries: nat, s: State, e: Event): State {
    match e
    case Commit(fields) =>
      State(Some(ActiveOf(s) + [Sealed(digest, fields, LastHash(ActiveOf(s)))]), s.archives)
    case Compaction(fields) =>
      if s.active.None? || |s.active.value| < maxEntries || !Chained(digest, s.active.value) then s
      else State(Some([Sealed(digest, fields, Terminal(digest, s.active.value))]), s.archives + [s.active.value])
  }

  ghost function RunOf(digest: Digest, maxEntries: nat, events: seq<Event>): State {
    if |events| == 0 then State(None, [])
    else After(digest, maxEntries, RunOf(digest, maxEntries, events[..|events| - 1]), events[|events| - 1])
  }

  /** After any run of appends and compactions, archives and active ledger audit as one chain. */
  lemma {:induction false} RunsStayChained(digest: Digest, maxEntries: nat, events: seq<Event>)
    ensures var s := RunOf(digest, maxEntries, events);
            Chained(digest, HistoryOf(s)) && (|ActiveOf(s)| == 0 ==> |Joined(s.archives)| == 0)
  {
    if |events| > 0 {
      var before := RunOf(digest, maxEntries, events[..|events| - 1]);
      RunsStayChained(digest, maxEntries, events[..|events| - 1]);
      EventGrows(digest, maxEntries, before, events[|events| - 1]);
    }
  }

  /** An event leaves the history alone or extends it by one chained record. */
  lemma EventGrows(digest: Digest, maxEntries: nat, s: State, e: Event)
    requires Chained(digest, HistoryOf(s)) && (|ActiveOf(s)| == 0 ==> |Joined(s.archives)| == 0)
    ensures var t := After(digest, maxEntries, s, e);
            Chained(digest, HistoryOf(t)) && (|ActiveOf(t)| == 0 ==> |Joined(t.archives)| == 0)
            && (HistoryOf(t) == HistoryOf(s)
                || exists fields :: HistoryOf(t) == HistoryOf(s) + [Sealed(digest, fields, Terminal(digest, HistoryOf(s)))])
  {
    var t := After(digest, maxEntries, s, e);
    ChainedSuffix(digest, Joined(s.archives), ActiveOf(s));
    ChainedLastHash(digest, ActiveOf(s));
    if t != s || e.Commit? {
      var fields := if e.Commit? then e.fields else e.anchorFields;
      var r := Sealed(digest, fields, Terminal(digest, HistoryOf(s)));
      ChainedAppend(digest, HistoryOf(s), r);
      if e.Compaction? {
        assert t.archives[..|t.archives| - 1] == s.archives;
      }
      assert HistoryOf(t) == HistoryOf(s) + [r];
    }
  }

  /** The texts committed in a run, in order. */
  function Commits(events: seq<Event>): (texts: seq<string>) {
    if |events| == 0 then []
    else Commits(events[..|events| - 1]) + (match events[|events| - 1] case Commit(fields) => [fields] case Compaction(_) => [])
  }

  /** Strictly increasing positions of the history, one for every committed text. */
  ghost predicate Records(positions: seq<nat>, history: seq<Record>, texts: seq<string>) {
    && |positions| == |texts|
    && (forall i :: 0 <= i < |positions| ==> positions[i] < |history| && history[positions[i]].fields == texts[i])
    && (forall i, j :: 0 <= i < j < |positions| ==> positions[i] < positions[j])
  }

  lemma RecordsStay(positions: seq<nat>, history: seq<Record>, texts: seq<string>, r: Record)
    requires Records(positions, history, texts)
    ensures Records(positions, history + [r], texts)
    ensures Records(positions + [|history|], history + [r], texts + [r.fields])
  {
  }

  /** Whatever is appended and compacted: every committed text is in the history, in order. */
  lemma {:induction false} CommitsStay(digest: Digest, maxEntries: nat, events: seq<Event>) returns (positions: seq<nat>)
    ensures Records(positions, HistoryOf(RunOf(digest, maxEntries, events)), Commits(events))
  {
    positions := [];
    if |events| > 0 {
      var before, e := events[..|events| - 1], events[|events| - 1];
      positions := CommitsStay(digest, maxEntries, before);
      RunsStayChained(digest, maxEntries, before);
      var s, t := RunOf(digest, maxEntries, before), RunOf(digest, maxEntries, events);
      EventRecords(digest, maxEntries, s, e);
      if HistoryOf(t) != HistoryOf(s) {
        RecordsStay(positions, HistoryOf(s), Commits(before), HistoryOf(t)[|HistoryOf(s)|]);
        if e.Commit? { positions := positions + [|HistoryOf(s)|]; }
      }
    }
  }

  /** A commit adds a record with its text; a compaction at most an anchor. */
  lemma EventRecords(digest: Digest, maxEntries: nat, s: State, e: Event)
    requires Chained(digest, HistoryOf(s)) && (|ActiveOf(s)| == 0 ==> |Joined(s.archives)| == 0)
    ensures var t := After(digest, maxEntries, s, e);
      (e.Commit? || HistoryOf(t) != HistoryOf(s) ==>
        |HistoryOf(t)| == |HistoryOf(s)| + 1 && HistoryOf(t) == HistoryOf(s) + [HistoryOf(t)[|HistoryOf(s)|]])
      && (e.Commit? ==> HistoryOf(t)[|HistoryOf(s)|].fields == e.fields)
  {
    var t := After(digest, maxEntries, s, e);
    EventGrows(digest, maxEntries, s, e);
    if e.Commit? {
      assert HistoryOf(t) == HistoryOf(s) + [ActiveOf(t)[|ActiveOf(s)|]];
    }
  }

  // ---- the recovery walk ----

  /** calculate_block_hash covers the whole block, "hash" field included. */
  type BlockDigest = Record -> string

  /** The walk over blocks from `start`: the blocks as it leaves them, and its outcome. */
  datatype Walk = Walk(blocks: seq<Record>, outcome: Outcome)
  datatype Outcome = Reached(last: Option<string>) | Failed(index: nat)

  /** A block without "previous_hash" adopts the running hash, if there is one. */
  function Retrofitted(block: Record, last: Option<string>): Record {
    if block.previous.None? && last.Some? then block.(previous := last) else block
  }

  predicate Fits(block: Record, last: Option<string>) { last.None? || Retrofitted(block, last).previous == last }

  function WalkFrom(digest: BlockDigest, blocks: seq<Record>, start: Option<string>): (w: Walk)
    ensures |w.blocks| == |blocks|
    ensures w.outcome.Failed? ==> w.outcome.index < |blocks|
  {
    if |blocks| == 0 then Walk([], Reached(start))
    else if !Fits(blocks[0], start) then Walk(blocks, Failed(0))
    else
      var block := Retrofitted(blocks[0], start);
      Before(block, WalkFrom(digest, blocks[1..], Some(digest(block))))
  }

  function Before(block: Record, rest: Walk): Walk {
    Walk([block] + rest.blocks, if rest.outcome.Failed? then Failed(rest.outcome.index + 1) else rest.outcome)
  }

  /** The walk of B, begun where the walk of A ended. */
  function Then(digest: BlockDigest, wa: Walk, b: seq<Record>): Walk {
    if wa.outcome.Failed? then Walk(wa.blocks + b, wa.outcome)
    else
      var wb := WalkFrom(digest, b, wa.outcome.last);
      Walk(wa.blocks + wb.blocks, if wb.outcome.Failed? then Failed(wb.outcome.index + |wa.blocks|) else wb.outcome)
  }

  lemma BeforeThen(digest: BlockDigest, block: Record, wa: Walk, b: seq<Record>)
    ensures Before(block, Then(digest, wa, b)) == Then(digest, Before(block, wa), b)
  {
    hide WalkFrom;
    if wa.outcome.Failed? {
      assert [block] + (wa.blocks + b) == [block] + wa.blocks + b;
    } else {
      var wb := WalkFrom(digest, b, wa.outcome.last);
      assert [block] + (wa.blocks + wb.blocks) == [block] + wa.blocks + wb.blocks;
    }
  }

  /** Walking A ++ B is walking A and then B from where A ended. */
  lemma {:induction false} WalksCompose(digest: BlockDigest, a: seq<Record>, b: seq<Record>, start: Option<string>)
    ensures WalkFrom(digest, a + b, start) == Then(digest, WalkFrom(digest, a, start), b)
    decreases |a|
  {
    if |a| == 0 {
      assert a + b == b;
      var wb := WalkFrom(digest, b, start);
      assert [] + wb.blocks == wb.blocks;
    } else {
      assert (a + b)[0] == a[0] && (a + b)[1..] == a[1..] + b;
      if Fits(a[0], start) {
        var block := Retrofitted(a[0], start);
        WalksCompose(digest, a[1..], b, Some(digest(block)));
        BeforeThen(digest, block, WalkFrom(digest, a[1..], Some(digest(block))), b);
      }
    }
  }

  /** A second walk finds nothing to retrofit and comes to the same end, from any start. */
  lemma {:induction false} SecondWalkChangesNothing(digest: BlockDigest, blocks: seq<Record>, start: Option<string>)
    ensures WalkFrom(digest, WalkFrom(digest, blocks, start).blocks, start) == WalkFrom(digest, blocks, start)
    decreases |blocks|
  {
    if |blocks| > 0 && Fits(blocks[0], start) {
      var block := Retrofitted(blocks[0], start);
      SecondWalkChangesNothing(digest, blocks[1..], Some(digest(block)));
      var rest := WalkFrom(digest, blocks[1..], Some(digest(block)));
      assert ([block] + rest.blocks)[1..] == rest.blocks;
    }
  }

  /** Block i of a walk names the hash of the walked block before it (or the start), having
      adopted it where it named none. */
  predicate Follows(digest: BlockDigest, blocks: seq<Record>, walked: seq<Record>, start: Option<string>, i: nat)
    requires i < |blocks| == |walked|
  {
    var last := if i == 0 then start else Some(digest(walked[i - 1]));
    walked[i] == Retrofitted(blocks[i], last) && (last.Some? ==> walked[i].previous == last)
  }

  /** The walk succeeds exactly when all blocks follow. */
  lemma {:induction false} WalkSucceeds(digest: BlockDigest, blocks: seq<Record>, start: Option<string>)
    ensures var w := WalkFrom(digest, blocks, start);
      w.outcome.Reached? <==> forall i :: 0 <= i < |blocks| ==> Follows(digest, blocks, w.blocks, start, i)
    decreases |blocks|
  {
    if |blocks| > 0 {
      var w := WalkFrom(digest, blocks, start);
      if Fits(blocks[0], start) {
        var block := Retrofitted(blocks[0], start);
        var rest := WalkFrom(digest, blocks[1..], Some(digest(block)));
        WalkSucceeds(digest, blocks[1..], Some(digest(block)));
        assert Follows(digest, blocks, w.blocks, start, 0);
        forall i | 0 <= i < |blocks| - 1
          ensures Follows(digest, blocks[1..], rest.blocks, Some(digest(block)), i) == Follows(digest, blocks, w.blocks, start, i + 1)
        {
        }
        if w.outcome.Reached? {
          forall i | 0 <= i < |blocks| ensures Follows(digest, blocks, w.blocks, start, i) {
            if i > 0 { assert Follows(digest, blocks[1..], rest.blocks, Some(digest(block)), i - 1); }
          }
        }
      } else {
        assert !Follows(digest, blocks, w.blocks, start, 0);
      }
    }
  }

  /** One block more: it follows, or the walk stops there with the rest untouched. */
  lemma WalkOneMore(digest: BlockDigest, done: seq<Record>, walked: seq<Record>, last: Option<string>, b: Record, rest: seq<Record>, start: Option<string>)
    requires WalkFrom(digest, done, start) == Walk(walked, Reached(last))
    ensures Fits(b, last) ==>
              WalkFrom(digest, done + [b], start) == Walk(walked + [Retrofitted(b, last)], Reached(Some(digest(Retrofitted(b, last)))))
    ensures !Fits(b, last) ==> WalkFrom(digest, done + ([b] + rest), start) == Walk(walked + ([b] + rest), Failed(|done|))
  {
    WalksCompose(digest, done, [b], start);
    WalksCompose(digest, done, [b] + rest, start);
    assert [b][1..] == [];
    assert WalkFrom(digest, [b][1..], Some(digest(Retrofitted(b, last)))) == Walk([], Reached(Some(digest(Retrofitted(b, last)))));
  }

  method VerifyLedgerChain(digest: BlockDigest, blocks: array<Record>, startHash: Option<string>) returns (outcome: Outcome)
    modifies blocks
    ensures Walk(blocks[..], outcome) == WalkFrom(digest, old(blocks[..]), startHash)
  {
    hide WalkFrom;
    ghost var was, walked: seq<Record> := blocks[..], [];
    NothingWalked(digest, startHash);
    if blocks.Length == 0 { return Reached(startHash); }
    var lastHash := startHash;
    for i := 0 to blocks.Length
      invariant |walked| == i && blocks[..] == walked + was[i..]
      invariant WalkFrom(digest, was[..i], startHash) == Walk(walked, Reached(lastHash))
      invariant i > 0 ==> lastHash.Some?
    {
      ghost var b, rest := was[i], was[i + 1..];
      Divide(was, i);
      assert blocks[..] == walked + ([b] + rest);
      WalkOneMore(digest, was[..i], walked, lastHash, b, rest, startHash);
      Replace(walked, b, Retrofitted(b, lastHash), rest);
      assert blocks[i] == blocks[..][i];
      var ok := Visit(blocks, i, lastHash);
      if !ok { return Failed(i); }
      assert blocks[i] == blocks[..][i];
      lastHash := Some(digest(blocks[i]));
      walked := walked + [blocks[i]];
    }
    assert was[..blocks.Length] == was && was[blocks.Length..] == [];
    outcome := Reached(lastHash);
  }

  /** The checks on one block, retrofitting it where it lies. */
  method Visit(blocks: array<Record>, i: nat, lastHash: Option<string>) returns (ok: bool)
    requires i < blocks.Length
    modifies blocks
    ensures ok == Fits(old(blocks[i]), lastHash)
    ensures blocks[..] == if ok then old(blocks[..])[i := Retrofitted(old(blocks[i]), lastHash)] else old(blocks[..])
  {
    if lastHash.None? { return true; }
    var expectedPrev := blocks[i].previous;
    if expectedPrev.None? && lastHash.Some? {
      blocks[i] := blocks[i].(previous := lastHash);
      expectedPrev := lastHash;
    }
    ok := !(lastHash.Some? && expectedPrev != lastHash);
  }

  lemma Replace(walked: seq<Record>, b: Record, c: Record, rest: seq<Record>)
    ensures (walked + ([b] + rest))[|walked| := c] == walked + [c] + rest
    ensures (walked + ([b] + rest))[|walked|] == b
  {
  }

  lemma Divide(s: seq<Record>, i: nat)
    requires i < |s|
    ensures s[i..] == [s[i]] + s[i + 1..] && s[..i + 1] == s[..i] + [s[i]] && s == s[..i] + ([s[i]] + s[i + 1..])
  {
  }

  lemma NothingWalked(digest: BlockDigest, start: Option<string>)
    ensures WalkFrom(digest, [], start) == Walk([], Reached(start))
  {
  }

  // ---- the two verifiers disagree ----

  const GENESIS_HASH: string := "GENESIS_ROOT_" + Repeated('0', 54)

  /** What SHA-256 over the two different serialisations gives for granted. */
  ghost predicate Unrelated(digest: Digest, blockDigest: BlockDigest) {
    (forall r: Record, c: Content :: blockDigest(r) != digest(c))
    && (forall c: Content :: digest(c) != ZERO && digest(c) != GENESIS_HASH)
  }

  lemma Apart(digest: Digest, blockDigest: BlockDigest, r: Record, c: Content)
    requires Unrelated(digest, blockDigest)
    ensures blockDigest(r) != digest(c) && digest(c) != ZERO && digest(c) != GENESIS_HASH
  {
  }

  lemma ShortWalk(blockDigest: BlockDigest, records: seq<Record>, start: Option<string>)
    requires |records| <= 1
    ensures WalkFrom(blockDigest, records, start).outcome.Reached? <==> |records| == 0 || Fits(records[0], start)
  {
    if |records| == 1 { assert records[1..] == []; }
  }

  /** Recovery hashes a block with its "hash" field and other separators, so from any start it
      accepts a ledger the audit accepts exactly when that is empty or one block that fits. */
  lemma RecoveryRejectsAuditedLedgers(digest: Digest, blockDigest: BlockDigest, records: seq<Record>, start: Option<string>)
    requires Unrelated(digest, blockDigest) && Chained(digest, records)
    ensures WalkFrom(blockDigest, records, start).outcome.Reached?
       <==> |records| == 0 || (|records| == 1 && Fits(records[0], start))
  {
    hide WalkFrom, Unrelated;
    if |records| <= 1 {
      ShortWalk(blockDigest, records, start);
    } else {
      WalkSucceeds(blockDigest, records, start);
      var w := WalkFrom(blockDigest, records, start).blocks;
      Apart(digest, blockDigest, w[0], Signed(records[0]));
      assert Linked(digest, records, 1);
      assert !Follows(blockDigest, records, w, start, 1);
    }
  }

  /** The oldest record of an active ledger names the zero hash or the hash of some record. */
  ghost predicate FirstNamesHash(digest: Digest, records: seq<Record>) {
    |records| > 0 ==> records[0].previous == Some(ZERO) || exists c: Content :: records[0].previous == Some(digest(c))
  }

  lemma TerminalIsHash(digest: Digest, records: seq<Record>)
    ensures Terminal(digest, records) == ZERO || exists c: Content :: Terminal(digest, records) == digest(c)
  {
    if |records| > 0 { assert Terminal(digest, records) == digest(Signed(records[|records| - 1])); }
  }

  lemma {:induction false} RunsNameHashes(digest: Digest, maxEntries: nat, events: seq<Event>)
    ensures FirstNamesHash(digest, ActiveOf(RunOf(digest, maxEntries, events)))
  {
    if |events| > 0 {
      var s := RunOf(digest, maxEntries, events[..|events| - 1]);
      RunsNameHashes(digest, maxEntries, events[..|events| - 1]);
      RunsStayChained(digest, maxEntries, events[..|events| - 1]);
      ChainedSuffix(digest, Joined(s.archives), ActiveOf(s));
      ChainedLastHash(digest, ActiveOf(s));
      TerminalIsHash(digest, ActiveOf(s));
    }
  }

  lemma GenesisIsNotZero()
    ensures GENESIS_HASH != ZERO
  {
    assert ZERO[0] != GENESIS_HASH[0];
  }

  /** Whatever was committed and compacted: from the genesis token it starts with, recovery accepts
      the active ledger only when there is none. */
  lemma RecoveryRejectsEveryRun(digest: Digest, blockDigest: BlockDigest, maxEntries: nat, events: seq<Event>)
    requires Unrelated(digest, blockDigest)
    ensures var active := ActiveOf(RunOf(digest, maxEntries, events));
      WalkFrom(blockDigest, active, Some(GENESIS_HASH)).outcome.Reached? <==> active == []
  {
    hide WalkFrom;
    var s := RunOf(digest, maxEntries, events);
    RunsStayChained(digest, maxEntries, events);
    ChainedSuffix(digest, Joined(s.archives), ActiveOf(s));
    RunsNameHashes(digest, maxEntries, events);
    GenesisIsNotZero();
    RecoveryRejectsAuditedLedgers(digest, blockDigest, ActiveOf(s), Some(GENESIS_HASH));
  }
}
