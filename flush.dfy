/**
 * What `SendOutgoingMessages` does with the messages a transaction context buffered, stated as
 * functions of the buffer, the URL cache and the provider's answers: the calls it makes, the
 * cache it leaves and the error it raises. The groups, which the source sends concurrently, are
 * taken one after another in group order.
 */
module Flush {
  import opened Wrappers
  import opened Messages
  import Platform
  import Provider
  import Addressing
  import Grouping
  import Wire

  /** The context in which a flush runs: the transport's options, the current instant, the library and the provider's answers. */
  datatype Setting = Setting(
    options: TransportOptions,
    now: int,
    lib: Platform.Library,
    lookup: string -> Provider.UrlResponse,
    rejects: (string, seq<Provider.BatchEntry>) -> seq<Provider.BatchResultError>)

  /** How one message's batch entry is built. */
  type EntryBuilder = Grouping.OutgoingMessage -> Result<Provider.BatchEntry, TransportError>

  /** The entries of the messages, built in order; the first message that fails stops the rest. */
  function BuildAll(messages: seq<Grouping.OutgoingMessage>, build: EntryBuilder): Result<seq<Provider.BatchEntry>, TransportError>
  {
    if messages == [] then Success([])
    else
      var entry :- build(messages[0]);
      var rest :- BuildAll(messages[1..], build);
      Success([entry] + rest)
  }

  /** `Wire.BuildEntry` in the given setting. */
  function EntryOf(setting: Setting): EntryBuilder
  {
    m => Wire.BuildEntry(m, setting.options, setting.now, setting.lib)
  }

  /** The entries of one group. */
  function BuildEntries(messages: seq<Grouping.OutgoingMessage>, setting: Setting): Result<seq<Provider.BatchEntry>, TransportError>
  {
    BuildAll(messages, EntryOf(setting))
  }

  /**
   * The entries are the messages' entries, one per message in order; a failure is the failure of
   * the first message whose entry cannot be built.
   */
  lemma {:induction false} BuildAllMeaning(messages: seq<Grouping.OutgoingMessage>, build: EntryBuilder)
    ensures var r := BuildAll(messages, build);
      && (r.Success? ==> (|r.value| == |messages| && forall i :: 0 <= i < |messages| ==> build(messages[i]) == Success(r.value[i])))
      && (r.Failure? ==> exists i :: (0 <= i < |messages| && build(messages[i]) == Failure(r.error) &&
            forall j :: 0 <= j < i ==> build(messages[j]).Success?))
  {
    if messages != [] {
      BuildAllMeaning(messages[1..], build);
      assert forall i :: 1 <= i < |messages| ==> messages[i] == messages[1..][i - 1];
      var r := BuildAll(messages, build);
      if build(messages[0]).Success? && r.Failure? {
        var rest := BuildAll(messages[1..], build);
        var k :| 0 <= k < |messages[1..]| && build(messages[1..][k]) == Failure(rest.error) &&
          forall j :: 0 <= j < k ==> build(messages[1..][j]).Success?;
        assert 0 <= k + 1 < |messages| && build(messages[k + 1]) == Failure(r.error);
      }
    }
  }

  /** The same, for the entries of a group. */
  lemma BuildEntriesMeaning(messages: seq<Grouping.OutgoingMessage>, setting: Setting)
    ensures var r := BuildEntries(messages, setting);
      && (r.Success? ==> (|r.value| == |messages| &&
            forall i :: 0 <= i < |messages| ==> Wire.BuildEntry(messages[i], setting.options, setting.now, setting.lib) == Success(r.value[i])))
      && (r.Failure? ==> exists i :: (0 <= i < |messages| &&
            Wire.BuildEntry(messages[i], setting.options, setting.now, setting.lib) == Failure(r.error) &&
            forall j :: 0 <= j < i ==> Wire.BuildEntry(messages[j], setting.options, setting.now, setting.lib).Success?))
  {
    BuildAllMeaning(messages, EntryOf(setting));
  }

  /** What a flush, or a part of one, leaves behind: the URL cache, the calls made, and the error raised if any. */
  datatype Outcome = Outcome(cache: map<string, string>, calls: seq<Provider.Call>, error: Option<TransportError>)

  /**
   * One group: its entries are built, its destination is resolved to a URL, and one batch of all
   * its entries is sent there; a batch with rejected entries is an error holding one failure per
   * rejected entry.
   */
  function SendGroup(group: Grouping.Group, cache: map<string, string>, setting: Setting): (o: Outcome)
    ensures o.error.None? ==>
      && BuildEntries(group.messages, setting).Success?
      && |BatchesOf(o.calls)| == 1
      && BatchesOf(o.calls)[0].entries == BuildEntries(group.messages, setting).value
    ensures |BatchesOf(o.calls)| <= 1
  {
    match BuildEntries(group.messages, setting)
    case Failure(e) => Outcome(cache, [], Some(e))
    case Success(entries) =>
      var resolution := Addressing.Resolve(cache, group.key, setting.lib, setting.lookup);
      match resolution.url
      case Failure(e) => Outcome(resolution.cache, resolution.calls, Some(e))
      case Success(url) =>
        var failed := setting.rejects(url, entries);
        var calls := resolution.calls + [Provider.SendMessageBatch(url, entries)];
        assert BatchesOf(calls) == BatchesOf(resolution.calls) + BatchesOf([Provider.SendMessageBatch(url, entries)]) by {
          BatchesOfAppend(resolution.calls, [Provider.SendMessageBatch(url, entries)]);
        }
        Outcome(resolution.cache, calls, if failed == [] then None else Some(BatchFailed(failed)))
  }

  /** How one group is sent from a cache. */
  type Sender = (Grouping.Group, map<string, string>) -> Outcome

  /** The groups in order, each sent by `send` from the cache the one before left; the error is the first group's error. */
  function SendEach(groups: seq<Grouping.Group>, cache: map<string, string>, send: Sender): Outcome
  {
    if groups == [] then Outcome(cache, [], None)
    else
      var before := SendEach(groups[..|groups| - 1], cache, send);
      var last := send(groups[|groups| - 1], before.cache);
      Outcome(last.cache, before.calls + last.calls, if before.error.Some? then before.error else last.error)
  }

  /** `SendGroup` in the given setting. */
  function GroupSender(setting: Setting): Sender
  {
    (group, cache) => SendGroup(group, cache, setting)
  }

  /** The groups, each sent by `SendGroup`. */
  function SendGroups(groups: seq<Grouping.Group>, cache: map<string, string>, setting: Setting): Outcome
  {
    SendEach(groups, cache, GroupSender(setting))
  }

  /** `SendOutgoingMessages`: nothing for an empty buffer, else the buffer grouped by destination and the groups sent. */
  function FlushMessages(messages: seq<Grouping.OutgoingMessage>, cache: map<string, string>, setting: Setting): (o: Outcome)
    ensures messages == [] ==> o == Outcome(cache, [], None)
  {
    if messages == [] then Outcome(cache, [], None)
    else SendGroups(Grouping.GroupByDestination(messages), cache, setting)
  }

  /** The batch requests among the calls, in order. */
  function BatchesOf(calls: seq<Provider.Call>): (batches: seq<Provider.Call>)
    ensures forall i :: 0 <= i < |batches| ==> batches[i].SendMessageBatch?
    ensures |batches| <= |calls|
  {
    if calls == [] then []
    else
      var init := BatchesOf(calls[..|calls| - 1]);
      var last := calls[|calls| - 1];
      if last.SendMessageBatch? then init + [last] else init
  }

  lemma {:induction false} BatchesOfAppend(a: seq<Provider.Call>, b: seq<Provider.Call>)
    ensures BatchesOf(a + b) == BatchesOf(a) + BatchesOf(b)
    decreases |b|
  {
    if b == [] {
      assert a + b == a;
    } else {
      assert (a + b)[..|a + b| - 1] == a + b[..|b| - 1];
      BatchesOfAppend(a, b[..|b| - 1]);
    }
  }

  /** A flush only looks up queue URLs and sends batches. */
  predicate OnlyLookupsAndBatches(calls: seq<Provider.Call>)
  {
    forall c | c in calls :: c.GetQueueUrl? || c.SendMessageBatch?
  }

  lemma OnlyLookupsAndBatchesAppend(a: seq<Provider.Call>, b: seq<Provider.Call>)
    requires OnlyLookupsAndBatches(a) && OnlyLookupsAndBatches(b)
    ensures OnlyLookupsAndBatches(a + b)
  {
    forall c | c in a + b
      ensures c.GetQueueUrl? || c.SendMessageBatch?
    {
      assert c in a || c in b;
    }
  }

  /** Sending one group more: the groups before it, then that group from the cache they left. */
  lemma SendEachStep(groups: seq<Grouping.Group>, i: nat, cache: map<string, string>, send: Sender)
    requires i < |groups|
    ensures var before := SendEach(groups[..i], cache, send);
      var last := send(groups[i], before.cache);
      SendEach(groups[..i + 1], cache, send) == Outcome(last.cache, before.calls + last.calls, if before.error.Some? then before.error else last.error)
  {
    assert groups[..i + 1][..i] == groups[..i];
  }

  /**
   * Sending the groups keeps the cache's keys lower-case and its URLs unchanged, makes no call
   * but lookups and batches, and sends at most one batch per group. It raises nothing exactly
   * when every group raises nothing from the cache the groups before it left, and then it sends
   * exactly one batch per group, in group order, holding the entries of that group's messages in
   * order, to the URL the final cache gives the group's destination.
   */
  lemma SendGroupsMeaning(groups: seq<Grouping.Group>, cache: map<string, string>, setting: Setting)
    requires Addressing.KeysAreLowerCase(cache)
    ensures var o := SendGroups(groups, cache, setting);
      && Addressing.KeysAreLowerCase(o.cache)
      && (forall key | key in cache :: key in o.cache && o.cache[key] == cache[key])
      && OnlyLookupsAndBatches(o.calls)
      && |BatchesOf(o.calls)| <= |groups|
      && (o.error.None? <==>
            forall i :: 0 <= i < |groups| ==> SendGroup(groups[i], SendGroups(groups[..i], cache, setting).cache, setting).error.None?)
      && (o.error.None? ==>
            && |BatchesOf(o.calls)| == |groups|
            && forall i :: 0 <= i < |groups| ==>
                 && BuildEntries(groups[i].messages, setting).Success?
                 && BatchesOf(o.calls)[i].entries == BuildEntries(groups[i].messages, setting).value
                 && Addressing.Resolve(o.cache, groups[i].key, setting.lib, setting.lookup)
                    == Addressing.Resolution(Success(BatchesOf(o.calls)[i].queueUrl), o.cache, []))
  {
    var send := GroupSender(setting);
    SenderKeepsCache(setting);
    SendEachKeepsCache(groups, cache, send);
    SenderCalls(setting);
    SendEachCalls(groups, cache, send);
    SendEachRaisesNothing(groups, cache, send);
    assert forall i :: 0 <= i < |groups| ==>
      (RaisesNothingAt(groups, i, cache, send) <==> SendGroup(groups[i], SendGroups(groups[..i], cache, setting).cache, setting).error.None?);
    if SendEach(groups, cache, send).error.None? {
      SenderSendsItsGroup(setting);
      SendEachSendsEachGroup(groups, cache, send, setting);
      SenderSendsToCachedUrl(setting);
      SendEachSendsToCachedUrls(groups, cache, send, setting);
    }
  }

  /** Every URL of `cache` is still in `later`, unchanged. */
  ghost predicate KeepsUrls(cache: map<string, string>, later: map<string, string>)
  {
    forall key | key in cache :: key in later && later[key] == cache[key]
  }

  /** A sender keeps the cache's keys lower-case and its URLs unchanged. */
  ghost predicate KeepsCache(send: Sender)
  {
    forall group, cache | Addressing.KeysAreLowerCase(cache) ::
      Addressing.KeysAreLowerCase(send(group, cache).cache) && KeepsUrls(cache, send(group, cache).cache)
  }

  /** A sender makes no call but lookups and batches, and sends at most one batch. */
  ghost predicate CallsAtMostOneBatch(send: Sender)
  {
    forall group, cache :: OnlyLookupsAndBatches(send(group, cache).calls) && |BatchesOf(send(group, cache).calls)| <= 1
  }

  /** The batch sent for a group holds the entries of the group's messages, in order. */
  ghost predicate SentAs(batch: Provider.Call, group: Grouping.Group, setting: Setting)
  {
    batch.SendMessageBatch? && BuildEntries(group.messages, setting).Success? && batch.entries == BuildEntries(group.messages, setting).value
  }

  /** A sender that raises nothing has sent one batch, holding the group's entries. */
  ghost predicate SendsItsGroup(send: Sender, setting: Setting)
  {
    forall group, cache | send(group, cache).error.None? ::
      |BatchesOf(send(group, cache).calls)| == 1 && SentAs(BatchesOf(send(group, cache).calls)[0], group, setting)
  }

  lemma SenderKeepsCache(setting: Setting)
    ensures KeepsCache(GroupSender(setting))
  {
    forall group, cache | Addressing.KeysAreLowerCase(cache)
      ensures Addressing.KeysAreLowerCase(SendGroup(group, cache, setting).cache) && KeepsUrls(cache, SendGroup(group, cache, setting).cache)
    {
      SendGroupKeepsCache(group, cache, setting);
    }
  }

  lemma SenderCalls(setting: Setting)
    ensures CallsAtMostOneBatch(GroupSender(setting))
  {
    forall group, cache
      ensures OnlyLookupsAndBatches(SendGroup(group, cache, setting).calls)
    {
      SendGroupCalls(group, cache, setting);
    }
  }

  lemma SenderSendsItsGroup(setting: Setting)
    ensures SendsItsGroup(GroupSender(setting), setting)
  {
  }

  /** Groups sent by a sender that keeps the cache keep the cache. */
  lemma {:induction false} SendEachKeepsCache(groups: seq<Grouping.Group>, cache: map<string, string>, send: Sender)
    requires KeepsCache(send)
    requires Addressing.KeysAreLowerCase(cache)
    ensures var o := SendEach(groups, cache, send);
      Addressing.KeysAreLowerCase(o.cache) && KeepsUrls(cache, o.cache)
    decreases |groups|
  {
    if groups != [] {
      var n := |groups|;
      var before := SendEach(groups[..n - 1], cache, send);
      SendEachKeepsCache(groups[..n - 1], cache, send);
      var after := send(groups[n - 1], before.cache).cache;
      assert KeepsUrls(before.cache, after);
    }
  }

  /** Groups sent by a sender that makes only lookups and at most one batch make only lookups and at most one batch per group. */
  lemma {:induction false} SendEachCalls(groups: seq<Grouping.Group>, cache: map<string, string>, send: Sender)
    requires CallsAtMostOneBatch(send)
    ensures var o := SendEach(groups, cache, send);
      OnlyLookupsAndBatches(o.calls) && |BatchesOf(o.calls)| <= |groups|
    decreases |groups|
  {
    if groups != [] {
      var n := |groups|;
      var before := SendEach(groups[..n - 1], cache, send);
      SendEachCalls(groups[..n - 1], cache, send);
      var last := send(groups[n - 1], before.cache);
      BatchesOfAppend(before.calls, last.calls);
      OnlyLookupsAndBatchesAppend(before.calls, last.calls);
    }
  }

  /** When no group fails, each group is sent as one batch of its entries, in group order. */
  lemma {:induction false} SendEachSendsEachGroup(groups: seq<Grouping.Group>, cache: map<string, string>, send: Sender, setting: Setting)
    requires SendsItsGroup(send, setting)
    requires SendEach(groups, cache, send).error.None?
    ensures var batches := BatchesOf(SendEach(groups, cache, send).calls);
      && |batches| == |groups|
      && forall i :: 0 <= i < |groups| ==> SentAs(batches[i], groups[i], setting)
    decreases |groups|
  {
    if groups != [] {
      var n := |groups|;
      var before := SendEach(groups[..n - 1], cache, send);
      var last := send(groups[n - 1], before.cache);
      assert before.error.None? && last.error.None?;
      SendEachSendsEachGroup(groups[..n - 1], cache, send, setting);
      SendsEachGroupStep(groups, (b, g) => SentAs(b, g, setting), before.calls, last.calls);
    }
  }

  lemma SendsEachGroupStep(groups: seq<Grouping.Group>, sentAs: (Provider.Call, Grouping.Group) -> bool, before: seq<Provider.Call>, last: seq<Provider.Call>)
    requires groups != []
    requires |BatchesOf(before)| == |groups| - 1
    requires forall i :: 0 <= i < |groups| - 1 ==> sentAs(BatchesOf(before)[i], groups[..|groups| - 1][i])
    requires |BatchesOf(last)| == 1 && sentAs(BatchesOf(last)[0], groups[|groups| - 1])
    ensures |BatchesOf(before + last)| == |groups|
    ensures forall i :: 0 <= i < |groups| ==> sentAs(BatchesOf(before + last)[i], groups[i])
  {
    var n := |groups|;
    var earlier, latest := BatchesOf(before), BatchesOf(last);
    BatchesOfAppend(before, last);
    var batches := earlier + latest;
    forall i | 0 <= i < n
      ensures sentAs(batches[i], groups[i])
    {
      if i < n - 1 {
        assert batches[i] == earlier[i] && groups[..n - 1][i] == groups[i];
      } else {
        assert batches[i] == latest[0];
      }
    }
  }

  /** One group keeps the cache's keys lower-case and its URLs unchanged. */
  lemma SendGroupKeepsCache(group: Grouping.Group, cache: map<string, string>, setting: Setting)
    requires Addressing.KeysAreLowerCase(cache)
    ensures var o := SendGroup(group, cache, setting);
      Addressing.KeysAreLowerCase(o.cache) && KeepsUrls(cache, o.cache)
  {
    Addressing.ResolveKeepsCache(cache, group.key, setting.lib, setting.lookup);
  }

  /** One group makes no call but a lookup and a batch. */
  lemma SendGroupCalls(group: Grouping.Group, cache: map<string, string>, setting: Setting)
    ensures OnlyLookupsAndBatches(SendGroup(group, cache, setting).calls)
  {
  }

  /**
   * One group, spelled out: a batch is sent exactly when the group's entries build and its
   * destination resolves; it goes to the resolved URL, which the cache then holds under the
   * lower-cased destination, and it holds the entries. The group raises nothing exactly when its
   * batch was sent and the provider rejected none of its entries; rejections raise the batch
   * error holding them, and an entry or a destination that fails raises its own error.
   */
  lemma SendGroupMeaning(group: Grouping.Group, cache: map<string, string>, setting: Setting)
    ensures var o := SendGroup(group, cache, setting);
      var entries := BuildEntries(group.messages, setting);
      var resolution := Addressing.Resolve(cache, group.key, setting.lib, setting.lookup);
      && (|BatchesOf(o.calls)| == 1 <==> entries.Success? && resolution.url.Success?)
      && (|BatchesOf(o.calls)| == 1 ==>
            && BatchesOf(o.calls)[0] == Provider.SendMessageBatch(resolution.url.value, entries.value)
            && SentToCachedUrl(BatchesOf(o.calls)[0], group, o.cache)
            && var failed := setting.rejects(resolution.url.value, entries.value);
               o.error == if failed == [] then None else Some(BatchFailed(failed)))
      && (o.error.None? <==>
            |BatchesOf(o.calls)| == 1 && setting.rejects(BatchesOf(o.calls)[0].queueUrl, BatchesOf(o.calls)[0].entries) == [])
      && (entries.Failure? ==> o == Outcome(cache, [], Some(entries.error)))
      && (entries.Success? && resolution.url.Failure? ==> o.error == Some(resolution.url.error) && o.cache == cache)
  {
    NoBatchesInResolution(cache, group.key, setting);
    var entries := BuildEntries(group.messages, setting);
    var resolution := Addressing.Resolve(cache, group.key, setting.lib, setting.lookup);
    if entries.Success? && resolution.url.Success? {
      BatchesOfAppend(resolution.calls, [Provider.SendMessageBatch(resolution.url.value, entries.value)]);
    }
  }

  /** `batch` went to the URL `cache` holds for the group's lower-cased destination. */
  ghost predicate SentToCachedUrl(batch: Provider.Call, group: Grouping.Group, cache: map<string, string>)
  {
    && batch.SendMessageBatch?
    && Platform.ToLowerInvariant(group.key) in cache
    && batch.queueUrl == cache[Platform.ToLowerInvariant(group.key)]
  }

  /** A sender that sends a batch sends it to the URL it leaves cached for the group's destination. */
  ghost predicate SendsToCachedUrl(send: Sender)
  {
    forall group, cache | |BatchesOf(send(group, cache).calls)| == 1 ::
      SentToCachedUrl(BatchesOf(send(group, cache).calls)[0], group, send(group, cache).cache)
  }

  lemma SenderSendsToCachedUrl(setting: Setting)
    ensures SendsToCachedUrl(GroupSender(setting))
  {
    forall group, cache | |BatchesOf(SendGroup(group, cache, setting).calls)| == 1
      ensures SentToCachedUrl(BatchesOf(SendGroup(group, cache, setting).calls)[0], group, SendGroup(group, cache, setting).cache)
    {
      SendGroupMeaning(group, cache, setting);
    }
  }

  /**
   * When no group fails, the batch of each group went to the URL the final cache holds for its
   * destination: a sender that keeps cached URLs never redirects an earlier group.
   */
  lemma {:induction false} SendEachSendsToCachedUrls(groups: seq<Grouping.Group>, cache: map<string, string>, send: Sender, setting: Setting)
    requires SendsItsGroup(send, setting) && SendsToCachedUrl(send) && KeepsCache(send)
    requires Addressing.KeysAreLowerCase(cache)
    requires SendEach(groups, cache, send).error.None?
    ensures var o := SendEach(groups, cache, send);
      && |BatchesOf(o.calls)| == |groups|
      && forall i :: 0 <= i < |groups| ==> SentToCachedUrl(BatchesOf(o.calls)[i], groups[i], o.cache)
    decreases |groups|
  {
    if groups != [] {
      var n := |groups|;
      var before := SendEach(groups[..n - 1], cache, send);
      var last := send(groups[n - 1], before.cache);
      assert before.error.None? && last.error.None?;
      SendEachSendsToCachedUrls(groups[..n - 1], cache, send, setting);
      SendEachKeepsCache(groups[..n - 1], cache, send);
      CachedUrlsStep(groups, before.calls, last.calls, before.cache, last.cache);
    }
  }

  lemma CachedUrlsStep(groups: seq<Grouping.Group>, before: seq<Provider.Call>, last: seq<Provider.Call>, cache: map<string, string>, later: map<string, string>)
    requires groups != []
    requires |BatchesOf(before)| == |groups| - 1
    requires forall i :: 0 <= i < |groups| - 1 ==> SentToCachedUrl(BatchesOf(before)[i], groups[..|groups| - 1][i], cache)
    requires KeepsUrls(cache, later)
    requires |BatchesOf(last)| == 1 && SentToCachedUrl(BatchesOf(last)[0], groups[|groups| - 1], later)
    ensures |BatchesOf(before + last)| == |groups|
    ensures forall i :: 0 <= i < |groups| ==> SentToCachedUrl(BatchesOf(before + last)[i], groups[i], later)
  {
    var n := |groups|;
    var earlier, latest := BatchesOf(before), BatchesOf(last);
    BatchesOfAppend(before, last);
    forall i | 0 <= i < n
      ensures SentToCachedUrl((earlier + latest)[i], groups[i], later)
    {
      if i < n - 1 {
        assert (earlier + latest)[i] == earlier[i] && groups[..n - 1][i] == groups[i];
        assert SentToCachedUrl(earlier[i], groups[i], cache);
      } else {
        assert (earlier + latest)[i] == latest[0];
      }
    }
  }

  /** Group `i` raises nothing when sent from the cache the groups before it left. */
  ghost predicate RaisesNothingAt(groups: seq<Grouping.Group>, i: nat, cache: map<string, string>, send: Sender)
    requires i < |groups|
  {
    send(groups[i], SendEach(groups[..i], cache, send).cache).error.None?
  }

  /** The groups raise nothing exactly when each group raises nothing from the cache the groups before it left. */
  lemma SendEachRaisesNothing(groups: seq<Grouping.Group>, cache: map<string, string>, send: Sender)
    ensures SendEach(groups, cache, send).error.None? <==> forall i :: 0 <= i < |groups| ==> RaisesNothingAt(groups, i, cache, send)
  {
    PrefixRaisesNothing(groups, |groups|, cache, send);
    assert groups[..|groups|] == groups;
  }

  lemma {:induction false} PrefixRaisesNothing(groups: seq<Grouping.Group>, k: nat, cache: map<string, string>, send: Sender)
    requires k <= |groups|
    ensures SendEach(groups[..k], cache, send).error.None? <==> forall i :: 0 <= i < k ==> RaisesNothingAt(groups, i, cache, send)
  {
    if k > 0 {
      PrefixRaisesNothing(groups, k - 1, cache, send);
      SendEachStep(groups, k - 1, cache, send);
      assert SendEach(groups[..k], cache, send).error.None? <==>
        SendEach(groups[..k - 1], cache, send).error.None? && RaisesNothingAt(groups, k - 1, cache, send);
    }
  }

  /** Sending the groups is sending the first `k`, then the rest from the cache those left; the first error wins. */
  lemma {:induction false} SendEachSplit(groups: seq<Grouping.Group>, k: nat, cache: map<string, string>, send: Sender)
    requires k <= |groups|
    ensures var first := SendEach(groups[..k], cache, send);
      var rest := SendEach(groups[k..], first.cache, send);
      SendEach(groups, cache, send) == Then(first, rest)
    decreases |groups|
  {
    var first := SendEach(groups[..k], cache, send);
    if k == |groups| {
      assert groups[..k] == groups && groups[k..] == [];
      assert first.calls + [] == first.calls;
      assert Then(first, Outcome(first.cache, [], None)) == first;
    } else {
      var n := |groups|;
      var init := groups[..n - 1];
      SendEachSplit(init, k, cache, send);
      assert init[..k] == groups[..k];
      var tail := groups[k..];
      assert tail[..|tail| - 1] == init[k..] && tail[|tail| - 1] == groups[n - 1];
      var middle := SendEach(init[k..], first.cache, send);
      var last := send(groups[n - 1], middle.cache);
      assert SendEach(tail, first.cache, send) == Then(middle, last);
      assert SendEach(init, cache, send) == Then(first, middle);
      assert SendEach(groups, cache, send) == Then(Then(first, middle), last);
      ThenAssociates(first, middle, last);
    }
  }

  /** One outcome followed by another: the later cache, both calls in order, the first error. */
  function Then(first: Outcome, next: Outcome): Outcome
  {
    Outcome(next.cache, first.calls + next.calls, if first.error.Some? then first.error else next.error)
  }

  lemma ThenAssociates(a: Outcome, b: Outcome, c: Outcome)
    ensures Then(Then(a, b), c) == Then(a, Then(b, c))
  {
    assert (a.calls + b.calls) + c.calls == a.calls + (b.calls + c.calls);
  }

  /** Group `i` is sent from the cache the groups before it left, and the groups after it from the cache it leaves. */
  lemma SendEachAt(groups: seq<Grouping.Group>, i: nat, cache: map<string, string>, send: Sender)
    requires i < |groups|
    ensures var before := SendEach(groups[..i], cache, send);
      var mine := send(groups[i], before.cache);
      var after := SendEach(groups[i + 1..], mine.cache, send);
      var o := SendEach(groups, cache, send);
      o.calls == before.calls + mine.calls + after.calls && o.cache == after.cache
  {
    var before := SendEach(groups[..i], cache, send);
    SendEachSplit(groups, i, cache, send);
    var tail := groups[i..];
    SendEachSplit(tail, 1, before.cache, send);
    assert tail[..1] == [groups[i]] && tail[1..] == groups[i + 1..];
    assert [groups[i]][..0] == [];
    var mine := send(groups[i], before.cache);
    assert SendEach([groups[i]], before.cache, send).calls == mine.calls;
    var after := SendEach(groups[i + 1..], mine.cache, send);
    assert before.calls + (mine.calls + after.calls) == before.calls + mine.calls + after.calls;
  }

  /**
   * Every group is tried whatever the groups before it raised: its calls (a lookup and its
   * batch, when its entries build and its destination resolves) sit between those of the groups
   * before and after it, and it starts from the cache the groups before it left.
   */
  lemma EveryGroupIsSent(groups: seq<Grouping.Group>, i: nat, cache: map<string, string>, setting: Setting)
    requires i < |groups|
    ensures var before := SendGroups(groups[..i], cache, setting);
      var mine := SendGroup(groups[i], before.cache, setting);
      var after := SendGroups(groups[i + 1..], mine.cache, setting);
      var o := SendGroups(groups, cache, setting);
      o.calls == before.calls + mine.calls + after.calls && o.cache == after.cache
  {
    SendEachAt(groups, i, cache, GroupSender(setting));
  }

  /** The number of entries in the batches. */
  function EntryCount(batches: seq<Provider.Call>): nat
  {
    if batches == [] then 0
    else EntryCount(batches[..|batches| - 1]) + (if batches[|batches| - 1].SendMessageBatch? then |batches[|batches| - 1].entries| else 0)
  }

  function GroupSizes(groups: seq<Grouping.Group>): nat
  {
    if groups == [] then 0 else GroupSizes(groups[..|groups| - 1]) + |groups[|groups| - 1].messages|
  }

  lemma {:induction false} GroupSizesCount(groups: seq<Grouping.Group>)
    ensures GroupSizes(groups) == |Grouping.AllMessages(groups)|
    decreases |groups|
  {
    if groups != [] {
      GroupSizesCount(groups[..|groups| - 1]);
    }
  }

  lemma {:induction false} EntryCountOfBatches(batches: seq<Provider.Call>, groups: seq<Grouping.Group>)
    requires |batches| == |groups|
    requires forall i :: 0 <= i < |groups| ==> batches[i].SendMessageBatch? && |batches[i].entries| == |groups[i].messages|
    ensures EntryCount(batches) == GroupSizes(groups)
    decreases |groups|
  {
    if groups != [] {
      EntryCountOfBatches(batches[..|batches| - 1], groups[..|groups| - 1]);
    }
  }

  /** Grouping keeps the number of messages. */
  lemma GroupSizesOfGrouping(messages: seq<Grouping.OutgoingMessage>)
    ensures GroupSizes(Grouping.GroupByDestination(messages)) == |messages|
  {
    var groups := Grouping.GroupByDestination(messages);
    GroupSizesCount(groups);
    assert |multiset(Grouping.AllMessages(groups))| == |multiset(messages)|;
  }

  /** Sent groups that raise nothing send as many entries as the groups hold messages. */
  lemma EntryCountOfSentGroups(groups: seq<Grouping.Group>, cache: map<string, string>, setting: Setting)
    requires Addressing.KeysAreLowerCase(cache)
    requires SendGroups(groups, cache, setting).error.None?
    ensures EntryCount(BatchesOf(SendGroups(groups, cache, setting).calls)) == GroupSizes(groups)
  {
    SendGroupsMeaning(groups, cache, setting);
    var batches := BatchesOf(SendGroups(groups, cache, setting).calls);
    forall i | 0 <= i < |groups|
      ensures |batches[i].entries| == |groups[i].messages|
    {
      BuildEntriesMeaning(groups[i].messages, setting);
    }
    EntryCountOfBatches(batches, groups);
  }

  /**
   * A flush that raises nothing sends every buffered message in exactly one entry: one batch per
   * destination, as many entries in all as messages buffered, and each batch holding the entries
   * of the messages to that destination, in buffer order, sent to that destination's URL.
   */
  lemma FlushSendsEveryMessageOnce(messages: seq<Grouping.OutgoingMessage>, cache: map<string, string>, setting: Setting)
    requires Addressing.KeysAreLowerCase(cache)
    requires FlushMessages(messages, cache, setting).error.None?
    ensures var o, groups := FlushMessages(messages, cache, setting), Grouping.GroupByDestination(messages);
      && |BatchesOf(o.calls)| == |groups|
      && EntryCount(BatchesOf(o.calls)) == |messages|
      && forall i :: 0 <= i < |groups| ==>
           && BuildEntries(groups[i].messages, setting).Success?
           && BatchesOf(o.calls)[i].entries == BuildEntries(groups[i].messages, setting).value
           && Addressing.Resolve(o.cache, groups[i].key, setting.lib, setting.lookup)
              == Addressing.Resolution(Success(BatchesOf(o.calls)[i].queueUrl), o.cache, [])
  {
    var groups := Grouping.GroupByDestination(messages);
    assert FlushMessages(messages, cache, setting) == SendGroups(groups, cache, setting);
    SendGroupsMeaning(groups, cache, setting);
    EntryCountOfSentGroups(groups, cache, setting);
    GroupSizesOfGrouping(messages);
  }

  /** Resolving makes no batch request. */
  lemma NoBatchesInResolution(cache: map<string, string>, address: string, setting: Setting)
    ensures BatchesOf(Addressing.Resolve(cache, address, setting.lib, setting.lookup).calls) == []
  {
    var calls := Addressing.Resolve(cache, address, setting.lib, setting.lookup).calls;
    if calls != [] {
      assert calls[..0] == [];
    }
  }

  /**
   * A flush that raises the batch error raises it for a batch it sent: the failures are the
   * provider's answer to that batch, one per rejected entry, and there is at least one.
   */
  lemma {:induction false} BatchErrorComesFromABatch(groups: seq<Grouping.Group>, cache: map<string, string>, setting: Setting)
    requires SendGroups(groups, cache, setting).error.Some?
    requires SendGroups(groups, cache, setting).error.value.BatchFailed?
    ensures var o := SendGroups(groups, cache, setting);
      exists i :: 0 <= i < |BatchesOf(o.calls)| && BatchRejected(BatchesOf(o.calls)[i], o.error.value.failures, setting)
    decreases |groups|
  {
    var n := |groups|;
    var before := SendGroups(groups[..n - 1], cache, setting);
    var last := SendGroup(groups[n - 1], before.cache, setting);
    var o := SendGroups(groups, cache, setting);
    BatchesOfAppend(before.calls, last.calls);
    if before.error.Some? {
      BatchErrorComesFromABatch(groups[..n - 1], cache, setting);
      var i :| 0 <= i < |BatchesOf(before.calls)| && BatchRejected(BatchesOf(before.calls)[i], o.error.value.failures, setting);
      assert BatchesOf(o.calls)[i] == BatchesOf(before.calls)[i];
    } else {
      LastBatchRejected(groups[n - 1], before.cache, setting);
      assert BatchesOf(o.calls)[|BatchesOf(before.calls)|] == BatchesOf(last.calls)[0];
    }
  }

  /** `failures` is the provider's non-empty answer to `batch`. */
  predicate BatchRejected(batch: Provider.Call, failures: seq<Provider.BatchResultError>, setting: Setting)
    requires batch.SendMessageBatch?
  {
    failures == setting.rejects(batch.queueUrl, batch.entries) && failures != []
  }

  lemma LastBatchRejected(group: Grouping.Group, cache: map<string, string>, setting: Setting)
    requires SendGroup(group, cache, setting).error.Some?
    requires SendGroup(group, cache, setting).error.value.BatchFailed?
    ensures var o := SendGroup(group, cache, setting);
      |BatchesOf(o.calls)| == 1 && BatchRejected(BatchesOf(o.calls)[0], o.error.value.failures, setting)
  {
    BuildEntriesMeaning(group.messages, setting);
    var entries := BuildEntries(group.messages, setting).value;
    var resolution := Addressing.Resolve(cache, group.key, setting.lib, setting.lookup);
    var batch := Provider.SendMessageBatch(resolution.url.value, entries);
    BatchesOfAppend(resolution.calls, [batch]);
    NoBatchesInResolution(cache, group.key, setting);
  }
}
