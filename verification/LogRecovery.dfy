/** What a recovery of paycards from provisioning logs returns, and the steps of a backward, chunked scan for it. */
module LogRecovery {
  import opened Text
  import opened Collections
  import Wire

  /** A provisioning log of the hub. */
  datatype Log = Log(block: nat, index: nat, paycardId: string, payer: Wire.Bytes, recipient: Wire.Bytes, metadataHash: string)

  datatype Recovered<V> = Recovered(log: Log, view: V)

  datatype Options = Options(payer: Option<string>, recipient: Option<string>, metadataHash: Option<string>, fromBlock: Option<int>, toBlock: Option<int>, limit: Option<int>, chunkSize: Option<int>)

  datatype ScanError =
    | BadHub | BadPayer | BadRecipient | NoParty | BadMetadataHash
    | BadFromBlock | BadToBlock | BadLimit | BadChunkSize | BadTopic

  /** A chain: its head, its provisioning logs oldest first, and the registry row of each paycard (None: payer is zero). */
  datatype Chain<V> = Chain(latest: nat, logs: seq<Log>, registry: string -> Option<V>) {
    ghost predicate Valid() {
      OldestFirst(logs)
    }
  }

  ghost predicate OldestFirst(logs: seq<Log>) {
    forall i, j | 0 <= i < j < |logs| :: logs[i].block <= logs[j].block
  }

  function InRange(lo: int, hi: int): Log -> bool {
    (l: Log) => lo <= l.block <= hi
  }

  /** `getLogs`: the matching logs of a block range, oldest first. */
  function GetLogs<V>(chain: Chain<V>, lo: int, hi: int): seq<Log> {
    Filter(InRange(lo, hi), chain.logs)
  }

  function Reverse<T>(s: seq<T>): (r: seq<T>)
    ensures |r| == |s| && forall i | 0 <= i < |s| :: r[i] == s[|s| - 1 - i]
  {
    seq(|s|, i requires 0 <= i < |s| => s[|s| - 1 - i])
  }

  // ---------------------------------------------------------------------------------------
  // What the scan is for, without chunks and without early exits
  // ---------------------------------------------------------------------------------------

  /** Passes the metadata filter and has a live registry row. */
  predicate Qualifies<V>(chain: Chain<V>, metadataHash: Option<string>, l: Log) {
    && (metadataHash.Some? && metadataHash.value != "" ==> Lower(l.metadataHash) == Lower(metadataHash.value))
    && chain.registry(l.paycardId).Some?
  }

  function Qualifying<V>(chain: Chain<V>, metadataHash: Option<string>): Log -> bool {
    (l: Log) => Qualifies(chain, metadataHash, l)
  }

  /** The first log of each paycard in a newest-first list. */
  function Firsts(newest: seq<Log>): (r: seq<Log>) {
    if |newest| == 0 then []
    else
      var before, l := Firsts(newest[..|newest| - 1]), newest[|newest| - 1];
      if Lower(l.paycardId) in Keys(before) then before else before + [l]
  }

  function Keys(logs: seq<Log>): set<string> {
    set i | 0 <= i < |logs| :: Lower(logs[i].paycardId)
  }

  function Take<T>(s: seq<T>, n: nat): seq<T> {
    if |s| <= n then s else s[..n]
  }

  function Newest<V>(chain: Chain<V>, metadataHash: Option<string>, lo: int, hi: int): seq<Log> {
    Filter(Qualifying(chain, metadataHash), Reverse(GetLogs(chain, lo, hi)))
  }

  /** The first `limit` distinct paycards of the newest-first range. */
  function Answer<V>(chain: Chain<V>, metadataHash: Option<string>, lo: int, hi: int, limit: nat): seq<Log> {
    Take(Firsts(Newest(chain, metadataHash, lo, hi)), limit)
  }

  // ---------------------------------------------------------------------------------------
  // What the answer means
  // ---------------------------------------------------------------------------------------

  lemma {:induction false} FirstsMeaning(newest: seq<Log>)
    ensures forall i, j | 0 <= i < j < |Firsts(newest)| :: Lower(Firsts(newest)[i].paycardId) != Lower(Firsts(newest)[j].paycardId)
    ensures Keys(Firsts(newest)) == Keys(newest)
  {
    if |newest| == 0 {
    } else {
      var front, l := newest[..|newest| - 1], newest[|newest| - 1];
      FirstsMeaning(front);
      KeysSnoc(front, l);
      KeysSnoc(Firsts(front), l);
      assert newest == front + [l];
      assert forall i | 0 <= i < |Firsts(front)| :: Lower(Firsts(front)[i].paycardId) in Keys(Firsts(front));
    }
  }

  /** Each recovered log comes before every other log of its paycard in the newest-first list. */
  lemma {:induction false} FirstsAreNewest(newest: seq<Log>, l: Log) returns (p: nat)
    requires l in Firsts(newest)
    ensures p < |newest| && newest[p] == l
    ensures forall q | 0 <= q < p :: Lower(newest[q].paycardId) != Lower(l.paycardId)
  {
    var front, last := newest[..|newest| - 1], newest[|newest| - 1];
    if l in Firsts(front) {
      p := FirstsAreNewest(front, l);
    } else {
      p := |newest| - 1;
      FirstsMeaning(front);
      assert forall q | 0 <= q < p :: newest[q] == front[q] && Lower(front[q].paycardId) in Keys(front);
    }
  }

  lemma KeysSnoc(logs: seq<Log>, l: Log)
    ensures Keys(logs + [l]) == Keys(logs) + {Lower(l.paycardId)}
  {
    var all := logs + [l];
    forall k ensures k in Keys(all) <==> k in Keys(logs) || k == Lower(l.paycardId) {
      if k in Keys(logs) {
        var i :| 0 <= i < |logs| && Lower(logs[i].paycardId) == k;
        assert Lower(all[i].paycardId) == k;
      }
      if k == Lower(l.paycardId) {
        assert Lower(all[|logs|].paycardId) == k;
      }
    }
  }

  lemma InNewest<V(!new)>(chain: Chain<V>, metadataHash: Option<string>, lo: int, hi: int, l: Log)
    ensures l in Newest(chain, metadataHash, lo, hi) <==> l in chain.logs && lo <= l.block <= hi && Qualifies(chain, metadataHash, l)
  {
    var logs := GetLogs(chain, lo, hi);
    FilterMembers(InRange(lo, hi), chain.logs);
    FilterMembers(Qualifying(chain, metadataHash), Reverse(logs));
    if l in logs {
      var i :| 0 <= i < |logs| && logs[i] == l;
      assert Reverse(logs)[|logs| - 1 - i] == l;
    }
    if l in Reverse(logs) {
      var i :| 0 <= i < |logs| && Reverse(logs)[i] == l;
      assert logs[|logs| - 1 - i] == l;
    }
  }

  /** An answer shorter than its limit has a log of every qualifying paycard in the range. */
  lemma AnswerIsComplete<V(!new)>(chain: Chain<V>, metadataHash: Option<string>, lo: int, hi: int, limit: nat, l: Log)
    requires l in chain.logs && lo <= l.block <= hi && Qualifies(chain, metadataHash, l)
    requires |Answer(chain, metadataHash, lo, hi, limit)| < limit
    ensures Lower(l.paycardId) in Keys(Answer(chain, metadataHash, lo, hi, limit))
  {
    var newest := Newest(chain, metadataHash, lo, hi);
    InNewest(chain, metadataHash, lo, hi, l);
    FirstsMeaning(newest);
    var j :| 0 <= j < |newest| && newest[j] == l;
    assert Lower(newest[j].paycardId) in Keys(newest);
  }

  /** Every entry of an answer qualifies, lies in the range, and is the first of its paycard from the newest end. */
  lemma AnswerIsSound<V(!new)>(chain: Chain<V>, metadataHash: Option<string>, lo: int, hi: int, limit: nat, i: nat) returns (p: nat)
    requires i < |Answer(chain, metadataHash, lo, hi, limit)|
    ensures var l := Answer(chain, metadataHash, lo, hi, limit)[i];
      var newest := Newest(chain, metadataHash, lo, hi);
      && |Answer(chain, metadataHash, lo, hi, limit)| <= limit
      && l in chain.logs && lo <= l.block <= hi && Qualifies(chain, metadataHash, l)
      && p < |newest| && newest[p] == l
      && (forall q | 0 <= q < p :: Lower(newest[q].paycardId) != Lower(l.paycardId))
  {
    var l := Answer(chain, metadataHash, lo, hi, limit)[i];
    var newest := Newest(chain, metadataHash, lo, hi);
    assert l == Firsts(newest)[i];
    p := FirstsAreNewest(newest, l);
    InNewest(chain, metadataHash, lo, hi, l);
  }

  // ---------------------------------------------------------------------------------------
  // Chunks
  // ---------------------------------------------------------------------------------------

  lemma {:induction false} RangeSplits(logs: seq<Log>, lo: int, mid: int, hi: int)
    requires OldestFirst(logs)
    requires lo <= mid + 1 <= hi + 1
    ensures Filter(InRange(lo, hi), logs) == Filter(InRange(lo, mid), logs) + Filter(InRange(mid + 1, hi), logs)
  {
    if |logs| == 0 {
    } else {
      var front, l := logs[..|logs| - 1], logs[|logs| - 1];
      RangeSplits(front, lo, mid, hi);
      if l.block <= mid {
        NoneInRange(front, mid + 1, hi);
      }
    }
  }

  lemma {:induction false} NoneInRange(logs: seq<Log>, lo: int, hi: int)
    requires forall i | 0 <= i < |logs| :: logs[i].block < lo
    ensures Filter(InRange(lo, hi), logs) == []
  {
    if |logs| == 0 {
    } else {
      NoneInRange(logs[..|logs| - 1], lo, hi);
    }
  }

  /** A range, newest first, is its upper chunk followed by the rest. */
  lemma NewestSplits<V(!new)>(chain: Chain<V>, metadataHash: Option<string>, lo: int, mid: int, hi: int)
    requires chain.Valid() && lo <= mid + 1 <= hi + 1
    ensures Newest(chain, metadataHash, lo, hi) == Newest(chain, metadataHash, mid + 1, hi) + Newest(chain, metadataHash, lo, mid)
  {
    RangeSplits(chain.logs, lo, mid, hi);
    var lower, upper := GetLogs(chain, lo, mid), GetLogs(chain, mid + 1, hi);
    assert Reverse(lower + upper) == Reverse(upper) + Reverse(lower);
    FilterAppend(Qualifying(chain, metadataHash), Reverse(upper), Reverse(lower));
  }

  lemma {:induction false} FirstsPrefix(s: seq<Log>, t: seq<Log>)
    ensures |Firsts(s)| <= |Firsts(s + t)| && Firsts(s + t)[..|Firsts(s)|] == Firsts(s)
  {
    if |t| == 0 {
      assert s + t == s;
    } else {
      FirstsPrefix(s, t[..|t| - 1]);
      assert (s + t)[..|s + t| - 1] == s + t[..|t| - 1];
    }
  }

  /** Once the limit is reached, older logs cannot change the answer. */
  lemma FullStaysFull(s: seq<Log>, t: seq<Log>, limit: nat)
    requires |Firsts(s)| >= limit
    ensures Take(Firsts(s + t), limit) == Take(Firsts(s), limit)
  {
    FirstsPrefix(s, t);
    assert Firsts(s)[..limit] == Firsts(s + t)[..|Firsts(s)|][..limit];
  }

  // ---------------------------------------------------------------------------------------
  // The scan
  // ---------------------------------------------------------------------------------------

  function LogsOf<V>(results: seq<Recovered<V>>): (r: seq<Log>)
    ensures |r| == |results| && forall i | 0 <= i < |results| :: r[i] == results[i].log
  {
    seq(|results|, i requires 0 <= i < |results| => results[i].log)
  }

  ghost predicate ViewsRead<V>(chain: Chain<V>, results: seq<Recovered<V>>) {
    forall i | 0 <= i < |results| :: ViewRead(chain, results[i])
  }

  ghost predicate ViewRead<V>(chain: Chain<V>, r: Recovered<V>) {
    chain.registry(r.log.paycardId) == Some(r.view)
  }

  /** Below the limit, one more qualifying log is appended exactly when its paycard has not been seen. */
  lemma ScanStep(before: seq<Log>, log: Log, qualifies: bool, limit: nat)
    requires |Take(Firsts(before), limit)| < limit
    ensures Take(Firsts(before), limit) == Firsts(before)
    ensures Take(Firsts(if qualifies then before + [log] else before), limit)
         == if qualifies && Lower(log.paycardId) !in Keys(Firsts(before)) then Firsts(before) + [log] else Firsts(before)
  {
    assert (before + [log])[..|before|] == before;
  }

  /** The results are the answer for the qualifying logs `visited` so far. */
  ghost predicate Answers<V>(chain: Chain<V>, visited: seq<Log>, limit: nat, results: seq<Recovered<V>>, seen: set<string>) {
    ViewsRead(chain, results) && (LogsOf(results), seen) == Answered(visited, limit)
  }

  /** The first logs of the visited ones, and their paycards. */
  function Answered(visited: seq<Log>, limit: nat): (seq<Log>, set<string>) {
    (Take(Firsts(visited), limit), Keys(Take(Firsts(visited), limit)))
  }

  function Visit(visited: seq<Log>, log: Log, qualifies: bool): seq<Log> {
    if qualifies then visited + [log] else visited
  }

  /** A log that does not qualify, or whose paycard has been seen, leaves the results as they are. */
  lemma Skipped<V>(chain: Chain<V>, visited: seq<Log>, log: Log, qualifies: bool, limit: nat, results: seq<Recovered<V>>, seen: set<string>)
    requires Answers(chain, visited, limit, results, seen) && |results| < limit
    requires !qualifies || Lower(log.paycardId) in seen
    ensures Answers(chain, Visit(visited, log, qualifies), limit, results, seen)
  {
    ScanStep(visited, log, qualifies, limit);
  }

  lemma AddedView<V>(chain: Chain<V>, log: Log, view: V, results: seq<Recovered<V>>)
    requires ViewsRead(chain, results) && chain.registry(log.paycardId) == Some(view)
    ensures ViewsRead(chain, results + [Recovered(log, view)])
    ensures LogsOf(results + [Recovered(log, view)]) == LogsOf(results) + [log]
  {
  }

  /** A qualifying log of a new paycard is the next result. */
  lemma Added<V>(chain: Chain<V>, visited: seq<Log>, log: Log, view: V, limit: nat, results: seq<Recovered<V>>, seen: set<string>)
    requires Answers(chain, visited, limit, results, seen) && |results| < limit
    requires chain.registry(log.paycardId) == Some(view) && Lower(log.paycardId) !in seen
    ensures Answers(chain, Visit(visited, log, true), limit, results + [Recovered(log, view)], seen + {Lower(log.paycardId)})
  {
    ScanStep(visited, log, true, limit);
    AddedView(chain, log, view, results);
    KeysSnoc(LogsOf(results), log);
  }

  lemma VisitNext(done: seq<Log>, q: Log -> bool, newest: seq<Log>, i: nat)
    requires i < |newest|
    ensures done + Filter(q, newest[..i + 1]) == Visit(done + Filter(q, newest[..i]), newest[i], q(newest[i]))
  {
    assert newest[..i + 1][..i] == newest[..i];
  }

  lemma RestOfChunk(done: seq<Log>, q: Log -> bool, newest: seq<Log>, i: nat, limit: nat)
    requires i <= |newest| && |Firsts(done + Filter(q, newest[..i]))| >= limit
    ensures Take(Firsts(done + Filter(q, newest)), limit) == Take(Firsts(done + Filter(q, newest[..i])), limit)
  {
    assert newest == newest[..i] + newest[i..];
    FilterAppend(q, newest[..i], newest[i..]);
    FullStaysFull(done + Filter(q, newest[..i]), Filter(q, newest[i..]), limit);
    assert done + Filter(q, newest[..i]) + Filter(q, newest[i..]) == done + Filter(q, newest);
  }

  /** An address that does not fit into a topic of 32 bytes; it is only looked at when there is a block to search. */
  predicate BadTopicFor(rules: Wire.AddressRules, party: Option<string>) {
    party.Some? && Wire.IsAddress(rules, party.value) && !Wire.FitsAddress(rules, party.value)
  }

  /** What is wrong with the arguments, in the order in which they are looked at. */
  function OptionError(rules: Wire.AddressRules, hub: string, latest: nat, o: Options): Option<ScanError> {
    var fromBlock, toBlock := Or(o.fromBlock, 0), Or(o.toBlock, latest);
    if !Wire.IsAddress(rules, hub) then Some(BadHub)
    else if o.payer.Some? && !Wire.IsAddress(rules, o.payer.value) then Some(BadPayer)
    else if o.recipient.Some? && !Wire.IsAddress(rules, o.recipient.value) then Some(BadRecipient)
    else if o.payer.None? && o.recipient.None? then Some(NoParty)
    else if o.metadataHash.Some? && o.metadataHash.value != "" && !Wire.IsHexString32(o.metadataHash.value) then Some(BadMetadataHash)
    else if fromBlock < 0 then Some(BadFromBlock)
    else if toBlock < fromBlock then Some(BadToBlock)
    else if Or(o.limit, 25) <= 0 then Some(BadLimit)
    else if Or(o.chunkSize, 5000) <= 0 then Some(BadChunkSize)
    else if fromBlock <= latest && (BadTopicFor(rules, o.payer) || BadTopicFor(rules, o.recipient)) then Some(BadTopic)
    else None
  }

  /** The topic filters: the payer and recipient asked for, compared as bytes. */
  predicate IsParty(rules: Wire.AddressRules, o: Options, l: Log) {
    && (o.payer.Some? ==> Wire.Denoted(rules, o.payer.value) == Some(l.payer))
    && (o.recipient.Some? ==> Wire.Denoted(rules, o.recipient.value) == Some(l.recipient))
  }

  /** The chain as the topic filters show it. */
  function Shown<V>(rules: Wire.AddressRules, chain: Chain<V>, o: Options): Chain<V> {
    chain.(logs := Filter((l: Log) => IsParty(rules, o, l), chain.logs))
  }

  lemma OldestFirstSnoc(logs: seq<Log>, last: Log)
    requires OldestFirst(logs) && forall l | l in logs :: l.block <= last.block
    ensures OldestFirst(logs + [last])
  {
    forall i | 0 <= i < |logs| ensures logs[i].block <= last.block {
      assert logs[i] in logs;
    }
  }

  lemma {:induction false} FilterKeepsOrder(p: Log -> bool, logs: seq<Log>)
    requires OldestFirst(logs)
    ensures OldestFirst(Filter(p, logs))
  {
    if |logs| == 0 {
    } else {
      var front, last := logs[..|logs| - 1], logs[|logs| - 1];
      FilterKeepsOrder(p, front);
      FilterMembers(p, front);
      forall l | l in Filter(p, front) ensures l.block <= last.block {
        var k :| 0 <= k < |front| && front[k] == l;
        assert logs[k] == l;
      }
      OldestFirstSnoc(Filter(p, front), last);
    }
  }

  lemma ShownIsValid<V>(rules: Wire.AddressRules, chain: Chain<V>, o: Options)
    requires chain.Valid()
    ensures Shown(rules, chain, o).Valid()
  {
    FilterKeepsOrder((l: Log) => IsParty(rules, o, l), chain.logs);
  }

  /** What a recovery is to return: the newest log of each paycard whose payer and recipient are those asked for, whose
      metadata hash is, and whose registry row is not empty, over the blocks asked for. */
  function Recovery<V>(rules: Wire.AddressRules, chain: Chain<V>, o: Options): seq<Log> {
    Answer(Shown(rules, chain, o), o.metadataHash, Or(o.fromBlock, 0), Min(Or(o.toBlock, chain.latest), chain.latest), Nat(Or(o.limit, 25)))
  }

  function Nat(x: int): nat {
    if x < 0 then 0 else x
  }

  /** A log on the chain within the blocks asked for, of the payer, recipient and metadata hash asked for where any is,
      whose paycard is registered. */
  ghost predicate Wanted<V>(rules: Wire.AddressRules, chain: Chain<V>, o: Options, l: Log) {
    && l in chain.logs
    && (if o.fromBlock.Some? then o.fromBlock.value else 0) <= l.block <= chain.latest
    && (o.toBlock.Some? ==> l.block <= o.toBlock.value)
    && (o.payer.Some? ==> Wire.Denoted(rules, o.payer.value) == Some(l.payer))
    && (o.recipient.Some? ==> Wire.Denoted(rules, o.recipient.value) == Some(l.recipient))
    && (o.metadataHash.Some? && o.metadataHash.value != "" ==> Lower(l.metadataHash) == Lower(o.metadataHash.value))
    && chain.registry(l.paycardId).Some?
  }

  lemma ShownLogs<V(!new)>(rules: Wire.AddressRules, chain: Chain<V>, o: Options)
    ensures forall l :: l in Shown(rules, chain, o).logs <==> l in chain.logs && IsParty(rules, o, l)
    ensures forall l :: Qualifies(Shown(rules, chain, o), o.metadataHash, l) <==> Qualifies(chain, o.metadataHash, l)
  {
    FilterMembers((l: Log) => IsParty(rules, o, l), chain.logs);
  }

  /** Everything returned was wanted, at most the limit (25 if none is given); and if less than the limit is returned,
      every wanted paycard is. */
  lemma RecoveryIsExact<V(!new)>(rules: Wire.AddressRules, chain: Chain<V>, o: Options)
    ensures forall i | 0 <= i < |Recovery(rules, chain, o)| :: Wanted(rules, chain, o, Recovery(rules, chain, o)[i])
    ensures var limit := if o.limit.Some? then o.limit.value else 25;
      && (limit >= 0 ==> |Recovery(rules, chain, o)| <= limit)
      && (|Recovery(rules, chain, o)| < limit ==>
            forall l | Wanted(rules, chain, o, l) :: Lower(l.paycardId) in Keys(Recovery(rules, chain, o)))
  {
    var shown, lo, hi := Shown(rules, chain, o), Or(o.fromBlock, 0), Min(Or(o.toBlock, chain.latest), chain.latest);
    var limit := Nat(Or(o.limit, 25));
    ShownLogs(rules, chain, o);
    forall i | 0 <= i < |Recovery(rules, chain, o)| ensures Wanted(rules, chain, o, Recovery(rules, chain, o)[i]) {
      var p := AnswerIsSound(shown, o.metadataHash, lo, hi, limit, i);
    }
    forall l | Wanted(rules, chain, o, l) && |Recovery(rules, chain, o)| < limit ensures Lower(l.paycardId) in Keys(Recovery(rules, chain, o)) {
      AnswerIsComplete(shown, o.metadataHash, lo, hi, limit, l);
    }
  }

  /** The places at which the elements of `r` stand in `s`, one after the other. */
  ghost predicate Places(r: seq<Log>, s: seq<Log>, ps: seq<nat>) {
    && |ps| == |r|
    && (forall i | 0 <= i < |ps| :: ps[i] < |s| && s[ps[i]] == r[i])
    && (forall i, j | 0 <= i < j < |ps| :: ps[i] < ps[j])
  }

  lemma PlacesWiden(r: seq<Log>, s: seq<Log>, x: Log, ps: seq<nat>)
    requires Places(r, s, ps)
    ensures Places(r, s + [x], ps)
  {
  }

  lemma PlacesSnoc(r: seq<Log>, s: seq<Log>, x: Log, ps: seq<nat>)
    requires Places(r, s, ps)
    ensures Places(r + [x], s + [x], ps + [|s|])
  {
  }

  lemma {:induction false} FirstsInOrder(newest: seq<Log>) returns (ps: seq<nat>)
    ensures Places(Firsts(newest), newest, ps)
  {
    if |newest| == 0 {
      ps := [];
    } else {
      var front, x := newest[..|newest| - 1], newest[|newest| - 1];
      ps := FirstsInOrder(front);
      assert newest == front + [x];
      if Firsts(newest) == Firsts(front) {
        PlacesWiden(Firsts(front), front, x, ps);
      } else {
        PlacesSnoc(Firsts(front), front, x, ps);
        ps := ps + [|front|];
      }
    }
  }

  lemma {:induction false} FilterInOrder(p: Log -> bool, s: seq<Log>) returns (ps: seq<nat>)
    ensures Places(Filter(p, s), s, ps)
  {
    if |s| == 0 {
      ps := [];
    } else {
      var front, x := s[..|s| - 1], s[|s| - 1];
      ps := FilterInOrder(p, front);
      assert s == front + [x];
      if p(x) {
        PlacesSnoc(Filter(p, front), front, x, ps);
        ps := ps + [|front|];
      } else {
        PlacesWiden(Filter(p, front), front, x, ps);
      }
    }
  }

  lemma PlacesCompose(r: seq<Log>, s: seq<Log>, t: seq<Log>, ps: seq<nat>, qs: seq<nat>) returns (rs: seq<nat>)
    requires Places(r, s, ps) && Places(s, t, qs)
    ensures Places(r, t, rs)
  {
    rs := seq(|ps|, i requires 0 <= i < |ps| => qs[ps[i]]);
  }

  /** The recovery lists its logs newest first: their places on the chain fall from one to the next. */
  lemma RecoveryIsNewestFirst<V(!new)>(rules: Wire.AddressRules, chain: Chain<V>, o: Options) returns (places: seq<nat>)
    ensures |places| == |Recovery(rules, chain, o)|
    ensures forall i | 0 <= i < |places| :: places[i] < |chain.logs| && chain.logs[places[i]] == Recovery(rules, chain, o)[i]
    ensures forall i, j | 0 <= i < j < |places| :: places[i] > places[j]
  {
    var shown, lo, hi := Shown(rules, chain, o), Or(o.fromBlock, 0), Min(Or(o.toBlock, chain.latest), chain.latest);
    var got := GetLogs(shown, lo, hi);
    var newest := Newest(shown, o.metadataHash, lo, hi);
    var a := FirstsInOrder(newest);
    var b := FilterInOrder(Qualifying(shown, o.metadataHash), Reverse(got));
    var c := PlacesCompose(Firsts(newest), newest, Reverse(got), a, b);
    var d := FilterInOrder((l: Log) => IsParty(rules, o, l), chain.logs);
    var e := FilterInOrder(InRange(lo, hi), shown.logs);
    var f := PlacesCompose(got, shown.logs, chain.logs, e, d);
    places := seq(|Recovery(rules, chain, o)|, i requires 0 <= i < |Recovery(rules, chain, o)| => f[|got| - 1 - c[i]]);
  }

  /** The blocks above `at` have been scanned. */
  ghost predicate Scanned<V>(chain: Chain<V>, metadataHash: Option<string>, lo: int, at: int, top: int, limit: nat,
                             results: seq<Recovered<V>>, seen: set<string>)
  {
    at <= top && (at + 1 >= lo || at == top) && Answers(chain, Newest(chain, metadataHash, at + 1, top), limit, results, seen)
  }

  lemma NothingYet<V(!new)>(chain: Chain<V>, metadataHash: Option<string>, lo: int, top: int, limit: nat)
    ensures Scanned(chain, metadataHash, lo, top, top, limit, [], {})
  {
    EmptyAbove(chain, metadataHash, top);
    assert LogsOf<V>([]) == [] && Keys([]) == {};
  }

  lemma StoppedAtAnswer<V(!new)>(chain: Chain<V>, metadataHash: Option<string>, lo: int, at: int, top: int, limit: nat,
                                 results: seq<Recovered<V>>, seen: set<string>)
    requires chain.Valid() && Scanned(chain, metadataHash, lo, at, top, limit, results, seen)
    requires at < lo || |results| >= limit
    ensures ViewsRead(chain, results) && LogsOf(results) == Answer(chain, metadataHash, lo, top, limit)
  {
    RestIsIrrelevant(chain, metadataHash, lo, at, top, limit);
  }

  lemma EmptyAbove<V(!new)>(chain: Chain<V>, metadataHash: Option<string>, top: int)
    ensures Newest(chain, metadataHash, top + 1, top) == []
  {
    EmptyRange(chain.logs, top);
  }

  lemma {:induction false} EmptyRange(logs: seq<Log>, top: int)
    ensures Filter(InRange(top + 1, top), logs) == []
  {
    if |logs| == 0 {
    } else {
      EmptyRange(logs[..|logs| - 1], top);
    }
  }

  /** Where the loop stops, either nothing is left below or the limit is reached. */
  lemma RestIsIrrelevant<V(!new)>(chain: Chain<V>, metadataHash: Option<string>, lo: int, at: int, top: int, limit: nat)
    requires chain.Valid() && at <= top && (at + 1 >= lo || at == top)
    requires at < lo || |Take(Firsts(Newest(chain, metadataHash, at + 1, top)), limit)| >= limit
    ensures Take(Firsts(Newest(chain, metadataHash, at + 1, top)), limit) == Answer(chain, metadataHash, lo, top, limit)
  {
    if at >= lo {
      NewestSplits(chain, metadataHash, lo, at, top);
      FullStaysFull(Newest(chain, metadataHash, at + 1, top), Newest(chain, metadataHash, lo, at), limit);
    } else if at + 1 != lo {
      EmptyBetween(chain.logs, at + 1, top);
      EmptyBetween(chain.logs, lo, top);
    }
  }

  lemma {:induction false} EmptyBetween(logs: seq<Log>, lo: int, hi: int)
    requires hi < lo
    ensures Filter(InRange(lo, hi), logs) == []
  {
    if |logs| == 0 {
    } else {
      EmptyBetween(logs[..|logs| - 1], lo, hi);
    }
  }
}
