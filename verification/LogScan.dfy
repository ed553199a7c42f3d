/** The loops that recover paycards from provisioning logs. */
module LogScan {
  import opened Text
  import opened Collections
  import Wire
  import opened LogRecovery

  /** One log of a chunk. `visited` stands for the qualifying logs before it. */
  method VisitLog<V(!new)>(chain: Chain<V>, metadataHash: Option<string>, log: Log, limit: nat, ghost visited: seq<Log>,
                     results: seq<Recovered<V>>, seen: set<string>)
    returns (results': seq<Recovered<V>>, seen': set<string>)
    requires Answers(chain, visited, limit, results, seen) && |results| < limit
    ensures Answers(chain, Visit(visited, log, Qualifies(chain, metadataHash, log)), limit, results', seen')
  {
    results', seen' := results, seen;
    var other := metadataHash.Some? && metadataHash.value != "" && Lower(log.metadataHash) != Lower(metadataHash.value);
    if other || Lower(log.paycardId) in seen {
      Skipped(chain, visited, log, Qualifies(chain, metadataHash, log), limit, results, seen);
      return;
    }
    var registry := chain.registry(log.paycardId);
    if registry.None? {
      Skipped(chain, visited, log, false, limit, results, seen);
      return;
    }
    Added(chain, visited, log, registry.value, limit, results, seen);
    seen' := seen + {Lower(log.paycardId)};
    results' := results + [Recovered(log, registry.value)];
  }

  /** One chunk's inner loop. `done` stands for the qualifying logs of the newer chunks. */
  method ScanChunk<V(!new)>(chain: Chain<V>, metadataHash: Option<string>, logs: seq<Log>, limit: nat, ghost done: seq<Log>,
                      results: seq<Recovered<V>>, seen: set<string>)
    returns (results': seq<Recovered<V>>, seen': set<string>)
    requires Answers(chain, done, limit, results, seen)
    ensures Answers(chain, done + Filter(Qualifying(chain, metadataHash), Reverse(logs)), limit, results', seen')
  {
    results', seen' := results, seen;
    var newest := Reverse(logs);
    ghost var q := Qualifying(chain, metadataHash);
    assert done + Filter(q, newest[..0]) == done;
    for i := 0 to |newest|
      invariant Answers(chain, done + Filter(q, newest[..i]), limit, results', seen')
    {
      if |results'| >= limit {
        RestOfChunk(done, q, newest, i, limit);
        return;
      }
      VisitNext(done, q, newest, i);
      results', seen' := VisitLog(chain, metadataHash, newest[i], limit, done + Filter(q, newest[..i]), results', seen');
    }
    assert newest[..|newest|] == newest;
  }

  /** The next chunk: blocks chunkFrom..chunkTo, after all blocks above them. */
  method ScanNext<V(!new)>(chain: Chain<V>, metadataHash: Option<string>, lo: int, chunkTo: int, ghost top: int, limit: nat, chunkSize: int,
                           results: seq<Recovered<V>>, seen: set<string>)
    returns (results': seq<Recovered<V>>, seen': set<string>, chunkFrom: int)
    requires chain.Valid() && chunkSize > 0 && lo <= chunkTo
    requires Scanned(chain, metadataHash, lo, chunkTo, top, limit, results, seen)
    ensures lo <= chunkFrom <= chunkTo && Scanned(chain, metadataHash, lo, chunkFrom - 1, top, limit, results', seen')
  {
    chunkFrom := Max(lo, chunkTo - chunkSize + 1);
    NewestSplits(chain, metadataHash, chunkFrom, chunkTo, top);
    results', seen' := ScanChunk(chain, metadataHash, GetLogs(chain, chunkFrom, chunkTo), limit,
                                 Newest(chain, metadataHash, chunkTo + 1, top), results, seen);
  }

  /** The chunked loop over blocks lo..top, newest chunk first; `at` is where it stops. */
  method ScanChunks<V(!new)>(chain: Chain<V>, metadataHash: Option<string>, lo: int, top: int, limit: nat, chunkSize: int)
    returns (found: seq<Recovered<V>>, seen: set<string>, at: int)
    requires chain.Valid() && chunkSize > 0
    ensures Scanned(chain, metadataHash, lo, at, top, limit, found, seen) && (at < lo || |found| >= limit)
  {
    found, seen, at := [], {}, top;
    NothingYet(chain, metadataHash, lo, top, limit);
    while at >= lo && |found| < limit
      invariant Scanned(chain, metadataHash, lo, at, top, limit, found, seen)
      decreases at + 1 - lo
    {
      var chunkFrom;
      found, seen, chunkFrom := ScanNext(chain, metadataHash, lo, at, top, limit, chunkSize, found, seen);
      at := chunkFrom - 1;
      if chunkFrom == lo { break; }
    }
  }

  /** The answer of the loop does not mention the chunk size. */
  method ScanBackwards<V(!new)>(chain: Chain<V>, metadataHash: Option<string>, lo: int, top: int, limit: nat, chunkSize: int)
    returns (results: seq<Recovered<V>>)
    requires chain.Valid() && chunkSize > 0
    ensures ViewsRead(chain, results) && LogsOf(results) == Answer(chain, metadataHash, lo, top, limit)
  {
    var seen, at;
    results, seen, at := ScanChunks(chain, metadataHash, lo, top, limit, chunkSize);
    StoppedAtAnswer(chain, metadataHash, lo, at, top, limit, results, seen);
  }

  /** `recoverPaycardsFromLogs`: every chunk size gives the same answer. */
  method RecoverPaycards<V(!new)>(rules: Wire.AddressRules, chain: Chain<V>, hub: string, o: Options) returns (r: Result<seq<Recovered<V>>, ScanError>)
    requires chain.Valid()
    ensures r.Err? <==> OptionError(rules, hub, chain.latest, o).Some?
    ensures r.Err? ==> OptionError(rules, hub, chain.latest, o) == Some(r.error)
    ensures r.Ok? ==> ViewsRead(chain, r.value) && LogsOf(r.value) == Recovery(rules, chain, o)
  {
    if !Wire.IsAddress(rules, hub) { return Err(BadHub); }
    if o.payer.Some? && !Wire.IsAddress(rules, o.payer.value) { return Err(BadPayer); }
    if o.recipient.Some? && !Wire.IsAddress(rules, o.recipient.value) { return Err(BadRecipient); }
    if o.payer.None? && o.recipient.None? { return Err(NoParty); }
    if o.metadataHash.Some? && o.metadataHash.value != "" && !Wire.IsHexString32(o.metadataHash.value) { return Err(BadMetadataHash); }
    var fromBlock := Or(o.fromBlock, 0);
    var toBlock := Or(o.toBlock, chain.latest);
    if fromBlock < 0 { return Err(BadFromBlock); }
    if toBlock < fromBlock { return Err(BadToBlock); }
    var limit := Or(o.limit, 25);
    if limit <= 0 { return Err(BadLimit); }
    var chunkSize := Or(o.chunkSize, 5000);
    if chunkSize <= 0 { return Err(BadChunkSize); }
    if fromBlock <= chain.latest && (BadTopicFor(rules, o.payer) || BadTopicFor(rules, o.recipient)) { return Err(BadTopic); }
    ShownIsValid(rules, chain, o);
    var results := ScanBackwards(Shown(rules, chain, o), o.metadataHash, fromBlock, Min(toBlock, chain.latest), limit, chunkSize);
    r := Ok(results);
  }
}
