/**
 * The grouping `SendOutgoingMessages` applies to the buffered messages: LINQ's `GroupBy` on the
 * exact destination string. Groups come in the order their keys first occur, and each group
 * keeps its messages in buffer order.
 */
module Grouping {
  import opened Wrappers
  import opened Messages

  /** `OutgoingMessage`: a message and the address it is to be sent to. */
  datatype OutgoingMessage = OutgoingMessage(destinationAddress: string, transportMessage: TransportMessage)

  /** One group of `GroupBy`: its key and its elements. */
  datatype Group = Group(key: string, messages: seq<OutgoingMessage>)

  function Destinations(messages: seq<OutgoingMessage>): (d: seq<string>)
    ensures |d| == |messages|
    ensures forall i :: 0 <= i < |messages| ==> d[i] == messages[i].destinationAddress
  {
    if messages == [] then [] else Destinations(messages[..|messages| - 1]) + [messages[|messages| - 1].destinationAddress]
  }

  /** The distinct elements of `xs`, in the order they first occur. */
  function Distinct(xs: seq<string>): (d: seq<string>)
    ensures forall i, j :: 0 <= i < j < |d| ==> d[i] != d[j]
    ensures forall x :: x in d <==> x in xs
  {
    if xs == [] then []
    else
      var init := Distinct(xs[..|xs| - 1]);
      assert forall x :: x in xs <==> x in xs[..|xs| - 1] || x == xs[|xs| - 1];
      if xs[|xs| - 1] in init then init else init + [xs[|xs| - 1]]
  }

  /** The messages bound for `key`, in buffer order. */
  function MessagesTo(messages: seq<OutgoingMessage>, key: string): (r: seq<OutgoingMessage>)
    ensures forall m | m in r :: m in messages && m.destinationAddress == key
    ensures forall m | m in messages && m.destinationAddress == key :: m in r
  {
    if messages == [] then []
    else
      var m := messages[|messages| - 1];
      var init := MessagesTo(messages[..|messages| - 1], key);
      assert forall x :: x in messages <==> x in messages[..|messages| - 1] || x == m;
      if m.destinationAddress == key then init + [m] else init
  }

  function Keys(groups: seq<Group>): (keys: seq<string>)
    ensures |keys| == |groups|
    ensures forall i :: 0 <= i < |groups| ==> keys[i] == groups[i].key
  {
    if groups == [] then [] else Keys(groups[..|groups| - 1]) + [groups[|groups| - 1].key]
  }

  /** The first group with the given key, if any. */
  function IndexOfKey(groups: seq<Group>, key: string): (r: Option<nat>)
    ensures r.Some? ==> r.value < |groups| && groups[r.value].key == key
    ensures r.None? ==> forall i :: 0 <= i < |groups| ==> groups[i].key != key
  {
    if groups == [] then None
    else if groups[0].key == key then Some(0)
    else match IndexOfKey(groups[1..], key)
      case None => None
      case Some(i) => Some(i + 1)
  }

  /** Adding one element to a lookup: to the end of its key's group, or as a new last group. */
  function AddToGroups(groups: seq<Group>, m: OutgoingMessage): seq<Group>
  {
    match IndexOfKey(groups, m.destinationAddress)
    case Some(i) => groups[i := Group(groups[i].key, groups[i].messages + [m])]
    case None => groups + [Group(m.destinationAddress, [m])]
  }

  /**
   * `messages.GroupBy(m => m.DestinationAddress)`: the messages added one by one, in order.
   * Grouping neither loses, duplicates nor invents a message: the groups hold a permutation of the buffer.
   */
  function GroupByDestination(messages: seq<OutgoingMessage>): (groups: seq<Group>)
    ensures multiset(AllMessages(groups)) == multiset(messages)
  {
    if messages == [] then []
    else
      var previous := GroupByDestination(messages[..|messages| - 1]);
      GroupByDestinationStep(messages, previous);
      AddToGroups(previous, messages[|messages| - 1])
  }

  lemma GroupByDestinationStep(messages: seq<OutgoingMessage>, previous: seq<Group>)
    requires messages != []
    requires multiset(AllMessages(previous)) == multiset(messages[..|messages| - 1])
    ensures multiset(AllMessages(AddToGroups(previous, messages[|messages| - 1]))) == multiset(messages)
  {
    var init, m := messages[..|messages| - 1], messages[|messages| - 1];
    AddToGroupsAddsOne(previous, m);
    assert messages == init + [m];
  }

  /** The groups the destinations of `messages` call for: one per distinct destination, holding exactly the messages bound there. */
  ghost predicate GroupsOf(groups: seq<Group>, messages: seq<OutgoingMessage>)
  {
    var keys := Distinct(Destinations(messages));
    && |groups| == |keys|
    && forall i :: 0 <= i < |groups| ==> groups[i] == Group(keys[i], MessagesTo(messages, keys[i]))
  }

  /** A key with no message has no messages. */
  lemma {:induction false} NoMessagesToAbsentKey(messages: seq<OutgoingMessage>, key: string)
    requires key !in Destinations(messages)
    ensures MessagesTo(messages, key) == []
    decreases |messages|
  {
    if messages != [] {
      var init := messages[..|messages| - 1];
      assert Destinations(init) == Destinations(messages)[..|messages| - 1];
      NoMessagesToAbsentKey(init, key);
      assert Destinations(messages)[|messages| - 1] == messages[|messages| - 1].destinationAddress;
    }
  }

  lemma DestinationsAppend(init: seq<OutgoingMessage>, m: OutgoingMessage)
    ensures Destinations(init + [m]) == Destinations(init) + [m.destinationAddress]
  {
    assert (init + [m])[..|init|] == init;
  }

  lemma MessagesToAppend(init: seq<OutgoingMessage>, m: OutgoingMessage, key: string)
    ensures MessagesTo(init + [m], key) == MessagesTo(init, key) + (if m.destinationAddress == key then [m] else [])
  {
    assert (init + [m])[..|init|] == init;
  }

  lemma DistinctAppend(xs: seq<string>, x: string)
    ensures Distinct(xs + [x]) == if x in Distinct(xs) then Distinct(xs) else Distinct(xs) + [x]
  {
    assert (xs + [x])[..|xs|] == xs;
  }

  /** Adding a message to the groups of a buffer gives the groups of the buffer with that message appended. */
  lemma AddToGroupsKeepsGroupsOf(groups: seq<Group>, init: seq<OutgoingMessage>, m: OutgoingMessage)
    requires GroupsOf(groups, init)
    ensures GroupsOf(AddToGroups(groups, m), init + [m])
  {
    var messages := init + [m];
    var keys := Distinct(Destinations(init));
    var d := m.destinationAddress;
    DestinationsAppend(init, m);
    DistinctAppend(Destinations(init), d);
    var result := AddToGroups(groups, m);
    match IndexOfKey(groups, d)
    case Some(i) =>
      assert keys[i] == d;
      assert Distinct(Destinations(messages)) == keys;
      forall j | 0 <= j < |result|
        ensures result[j] == Group(keys[j], MessagesTo(messages, keys[j]))
      {
        MessagesToAppend(init, m, keys[j]);
        if j != i {
          assert keys[j] != keys[i];
        }
      }
    case None =>
      assert d !in keys;
      var newKeys := keys + [d];
      assert Distinct(Destinations(messages)) == newKeys;
      forall j | 0 <= j < |result|
        ensures result[j] == Group(newKeys[j], MessagesTo(messages, newKeys[j]))
      {
        MessagesToAppend(init, m, newKeys[j]);
        if j == |groups| {
          NoMessagesToAbsentKey(init, d);
        } else {
          assert newKeys[j] == keys[j] != d;
        }
      }
  }

  /**
   * The grouping is LINQ's: one group per distinct destination, in order of first occurrence,
   * each holding exactly the messages sent there, in buffer order.
   */
  lemma {:induction false} GroupByDestinationMeaning(messages: seq<OutgoingMessage>)
    ensures GroupsOf(GroupByDestination(messages), messages)
    decreases |messages|
  {
    if messages != [] {
      var init := messages[..|messages| - 1];
      var m := messages[|messages| - 1];
      GroupByDestinationMeaning(init);
      AddToGroupsKeepsGroupsOf(GroupByDestination(init), init, m);
      assert messages == init + [m];
    }
  }

  /** Every message of the buffer, each group's messages concatenated in group order. */
  function AllMessages(groups: seq<Group>): seq<OutgoingMessage>
  {
    if groups == [] then [] else AllMessages(groups[..|groups| - 1]) + groups[|groups| - 1].messages
  }

  /** Replacing one group's messages replaces them in the concatenation, counted as a multiset. */
  lemma {:induction false} AllMessagesUpdate(groups: seq<Group>, i: nat, g: Group)
    requires i < |groups|
    ensures multiset(AllMessages(groups[i := g])) + multiset(groups[i].messages) == multiset(AllMessages(groups)) + multiset(g.messages)
    decreases |groups|
  {
    var n := |groups|;
    var updated := groups[i := g];
    var front := groups[..n - 1];
    var last := multiset(groups[n - 1].messages);
    assert AllMessages(groups) == AllMessages(front) + groups[n - 1].messages;
    var whole := multiset(AllMessages(front)) + last;
    assert multiset(AllMessages(groups)) == whole;
    if i == n - 1 {
      assert updated[..n - 1] == front;
      assert AllMessages(updated) == AllMessages(front) + g.messages;
    } else {
      assert updated[..n - 1] == front[i := g];
      assert AllMessages(updated) == AllMessages(front[i := g]) + groups[n - 1].messages;
      var replaced := multiset(AllMessages(front[i := g]));
      assert multiset(AllMessages(updated)) == replaced + last;
      AllMessagesUpdate(front, i, g);
      assert front[i] == groups[i];
      MultisetShuffle(replaced, last, multiset(groups[i].messages), multiset(AllMessages(front)), multiset(g.messages));
    }
  }

  /** If `r + o == f + n` then `(r + l) + o == (f + l) + n`. */
  lemma MultisetShuffle<T>(r: multiset<T>, l: multiset<T>, o: multiset<T>, f: multiset<T>, n: multiset<T>)
    requires r + o == f + n
    ensures (r + l) + o == (f + l) + n
  {
    assert forall x :: ((r + l) + o)[x] == (r + o)[x] + l[x];
    assert forall x :: ((f + l) + n)[x] == (f + n)[x] + l[x];
  }

  /** If `a + c == b + c` then `a == b`. */
  lemma MultisetCancel<T>(a: multiset<T>, b: multiset<T>, c: multiset<T>)
    requires a + c == b + c
    ensures a == b
  {
    forall x
      ensures a[x] == b[x]
    {
      assert (a + c)[x] == (b + c)[x];
    }
  }

  /** Adding a message to the groups adds exactly that message. */
  lemma AddToGroupsAddsOne(groups: seq<Group>, m: OutgoingMessage)
    ensures multiset(AllMessages(AddToGroups(groups, m))) == multiset(AllMessages(groups)) + multiset{m}
  {
    match IndexOfKey(groups, m.destinationAddress)
    case Some(i) =>
      var grown := Group(groups[i].key, groups[i].messages + [m]);
      AllMessagesUpdate(groups, i, grown);
      assert multiset(grown.messages) == multiset(groups[i].messages) + multiset{m};
      MultisetCancel(multiset(AllMessages(groups[i := grown])), multiset(AllMessages(groups)) + multiset{m}, multiset(groups[i].messages));
    case None =>
      assert (groups + [Group(m.destinationAddress, [m])])[..|groups|] == groups;
  }

  /** Every group is non-empty, no two groups share a key, and a group holds only messages for its key. */
  lemma GroupsArePartition(messages: seq<OutgoingMessage>)
    ensures var groups := GroupByDestination(messages);
      && (forall i :: 0 <= i < |groups| ==> groups[i].messages != [])
      && (forall i, j :: 0 <= i < j < |groups| ==> groups[i].key != groups[j].key)
      && (forall i, m :: 0 <= i < |groups| && m in groups[i].messages ==> m.destinationAddress == groups[i].key)
      && (forall m | m in messages :: exists i :: 0 <= i < |groups| && groups[i].key == m.destinationAddress && m in groups[i].messages)
  {
    GroupByDestinationMeaning(messages);
    var groups := GroupByDestination(messages);
    forall i | 0 <= i < |groups|
      ensures groups[i].messages != []
    {
      GroupIsNotEmpty(messages, groups, i);
    }
    forall m | m in messages
      ensures exists i :: 0 <= i < |groups| && groups[i].key == m.destinationAddress && m in groups[i].messages
    {
      MessageIsInItsGroup(messages, groups, m);
    }
  }

  lemma GroupIsNotEmpty(messages: seq<OutgoingMessage>, groups: seq<Group>, i: nat)
    requires GroupsOf(groups, messages)
    requires i < |groups|
    ensures groups[i].messages != []
  {
    var keys := Distinct(Destinations(messages));
    assert keys[i] in Destinations(messages);
    var j :| 0 <= j < |messages| && Destinations(messages)[j] == keys[i];
    assert messages[j] in MessagesTo(messages, keys[i]);
  }

  lemma MessageIsInItsGroup(messages: seq<OutgoingMessage>, groups: seq<Group>, m: OutgoingMessage)
    requires GroupsOf(groups, messages)
    requires m in messages
    ensures exists i :: 0 <= i < |groups| && groups[i].key == m.destinationAddress && m in groups[i].messages
  {
    var keys := Distinct(Destinations(messages));
    var j :| 0 <= j < |messages| && messages[j] == m;
    assert Destinations(messages)[j] == m.destinationAddress;
    assert m.destinationAddress in keys;
    var i :| 0 <= i < |keys| && keys[i] == m.destinationAddress;
    assert m in groups[i].messages;
  }
}
