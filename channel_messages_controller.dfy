/**
 * `ChannelMessagesController`: read a channel's messages, newest first
 * and optionally limited, and post a message to a channel (route
 * `api/channel-messages/{channelName}`).
 */
module ChannelMessagesController {
  import opened Wrappers
  import opened Sorting
  import opened Linq
  import opened Models
  import opened BindingModels
  import opened Store
  import opened Responses
  import opened Numerals
  import opened Feeds
  import opened SenderResolution

  /** `OrderByDescending(m => m.DateSent).ThenByDescending(m => m.Id)` */
  predicate NewerMessage(a: ChannelMessage, b: ChannelMessage)
  {
    Newer(a.dateSent, a.id, b.dateSent, b.id)
  }

  /** `new MessageViewModel { Id, Text, DateSent, Sender }` */
  function ToView(m: ChannelMessage): MessageView
  {
    MessageView(m.id, m.text, m.dateSent, SenderName(m.sender))
  }

  /** The channel's messages in the order the query sorts them. */
  function Feed(messages: seq<ChannelMessage>, channelId: int): seq<ChannelMessage>
  {
    InsertionSort(MessagesOf(messages, channelId), NewerMessage)
  }

  /** Ordering messages newest first is a strict order. */
  lemma NewerMessageIsStrictOrder()
    ensures Irreflexive(NewerMessage) && Transitive(NewerMessage)
  {
  }

  /** Message keys are unique, so any two different messages are ordered. */
  lemma MessagesConnected(messages: seq<ChannelMessage>, channels: seq<Channel>, users: seq<User>, nextId: int, channelId: int)
    requires ValidChannelMessages(messages, channels, users, nextId)
    ensures Connected(NewerMessage, MessagesOf(messages, channelId))
  {
  }

  /** The sorted messages are the channel's messages, newest first. */
  lemma FeedIsNewestFirst(messages: seq<ChannelMessage>, channels: seq<Channel>, users: seq<User>, nextId: int, channelId: int)
    requires ValidChannelMessages(messages, channels, users, nextId)
    ensures SortedBy(NewerMessage, Feed(messages, channelId))
    ensures multiset(Feed(messages, channelId)) == multiset(MessagesOf(messages, channelId))
  {
    NewerMessageIsStrictOrder();
    MessagesConnected(messages, channels, users, nextId, channelId);
    SortIsSorted(MessagesOf(messages, channelId), NewerMessage);
  }

  /**
   * The first `n` projected messages are the feed of `n` entries drawn
   * from the views of the channel's messages.
   */
  lemma NewestViews(messages: seq<ChannelMessage>, channels: seq<Channel>, users: seq<User>, nextId: int, channelId: int, n: nat)
    requires ValidChannelMessages(messages, channels, users, nextId)
    ensures IsFeedOf(Select(Take(Feed(messages, channelId), n), ToView), Select(MessagesOf(messages, channelId), ToView), n)
  {
    var feed := Feed(messages, channelId);
    FeedIsNewestFirst(messages, channels, users, nextId, channelId);
    SelectPermutation(feed, MessagesOf(messages, channelId), ToView);
    var views := Select(feed, ToView);
    assert NewestFirst(views) by {
      forall i, j | 0 <= i < j < |views| ensures ViewNewer(views[i], views[j]) {
        assert NewerMessage(feed[i], feed[j]);
      }
    }
    SortedTakeIsFeed(views, Select(MessagesOf(messages, channelId), ToView), n);
    assert Select(Take(feed, n), ToView) == Take(views, n);
  }

  /**
   * Where the rows are stored does not matter: two orderings of the same
   * table give the same feed.
   */
  lemma {:induction false} FeedIgnoresStorageOrder(messages: seq<ChannelMessage>, messages': seq<ChannelMessage>,
                                                   channels: seq<Channel>, users: seq<User>, nextId: int, channelId: int)
    requires ValidChannelMessages(messages, channels, users, nextId)
    requires ValidChannelMessages(messages', channels, users, nextId)
    requires multiset(messages) == multiset(messages')
    ensures Feed(messages, channelId) == Feed(messages', channelId)
  {
    var ms, ms' := MessagesOf(messages, channelId), MessagesOf(messages', channelId);
    assert forall m :: m in messages <==> m in messages' by {
      assert forall m :: m in messages <==> m in multiset(messages');
    }
    SameElementsPermutation(ms, ms');
    FeedIsNewestFirst(messages, channels, users, nextId, channelId);
    FeedIsNewestFirst(messages', channels, users, nextId, channelId);
    NewerMessageIsStrictOrder();
    SortedPermutationIsUnique(Feed(messages, channelId), Feed(messages', channelId), NewerMessage);
  }

  /** Every stored message of a channel is among the views its feed is drawn from. */
  lemma PostedMessageIsListed(messages: seq<ChannelMessage>, m: ChannelMessage)
    requires m in messages
    ensures ToView(m) in Select(MessagesOf(messages, m.channelId), ToView)
  {
    var posted := MessagesOf(messages, m.channelId);
    var i :| 0 <= i < |posted| && posted[i] == m;
    assert Select(posted, ToView)[i] == ToView(m);
  }

  const MinLimit := 1
  const MaxLimit := 1000
  const InvalidLimit := "Limit should be integer in range [1..1000]."

  /** `int.TryParse(limit, out limitCount)`: a failed parse leaves 0. */
  function LimitCount(limit: string): (k: int)
    ensures TryParseInt32(limit).None? ==> k == 0
    ensures TryParseInt32(limit).Some? ==> k == TryParseInt32(limit).value
    ensures Int32Min <= k <= Int32Max
  {
    match TryParseInt32(limit)
    case None => 0
    case Some(k) => k
  }

  /** The limits the action accepts. */
  predicate LimitAccepted(limit: string)
  {
    MinLimit <= LimitCount(limit) <= MaxLimit
  }

  /** GET api/channel-messages/{channelName}?limit=... */
  function GetChannelMessages(db: MessagesData, channelName: string, limit: Option<string>): (r: Response)
    reads db
    requires db.Valid()
    ensures r.status in {Ok, NotFound, BadRequest}
    ensures r.status == NotFound <==> !NameTaken(db.channels, channelName)
    ensures r.status == NotFound ==> r.body == NoContent
    ensures r.status == BadRequest <==> NameTaken(db.channels, channelName) && limit.Some? && !LimitAccepted(limit.value)
    ensures r.status == BadRequest ==> r.body == Message(InvalidLimit)
    ensures NameTaken(db.channels, channelName) && r.status == Ok ==>
      var views := Select(MessagesOf(db.channelMessages, FindChannelByName(db.channels, channelName).value.id), ToView);
      && r.body.MessageList?
      && IsFeedOf(r.body.messages, views, if limit.Some? then LimitCount(limit.value) else |views|)
  {
    match FindChannelByName(db.channels, channelName)
    case None => Response(NotFound, NoContent)
    case Some(channel) =>
      var feed := Feed(db.channelMessages, channel.id);
      if limit.None? then
        FeedIsNewestFirst(db.channelMessages, db.channels, db.users, db.nextChannelMessageId, channel.id);
        assert |feed| == |MessagesOf(db.channelMessages, channel.id)| by {
          assert |multiset(feed)| == |multiset(MessagesOf(db.channelMessages, channel.id))|;
        }
        NewestViews(db.channelMessages, db.channels, db.users, db.nextChannelMessageId, channel.id, |feed|);
        Response(Ok, MessageList(Select(feed, ToView)))
      else if LimitAccepted(limit.value) then
        var limitCount := LimitCount(limit.value);
        NewestViews(db.channelMessages, db.channels, db.users, db.nextChannelMessageId, channel.id, limitCount);
        Response(Ok, MessageList(Select(Take(feed, limitCount), ToView)))
      else
        Response(BadRequest, Message(InvalidLimit))
  }

  /** The text of a 32-bit integer is accepted as a limit exactly when the integer is in [1..1000]. */
  lemma IntegerLimit(k: int)
    requires Int32Min <= k <= Int32Max
    ensures LimitCount(IntToString(k)) == k
    ensures LimitAccepted(IntToString(k)) <==> MinLimit <= k <= MaxLimit
  {
    ParseIntToString(k);
  }

  /** Text with no decimal digit in it (the empty string, a word) is refused as a limit. */
  lemma NonNumericLimitRefused(limit: string)
    requires forall i :: 0 <= i < |limit| ==> !IsDigit(limit[i])
    ensures LimitCount(limit) == 0 && !LimitAccepted(limit)
  {
  }

  /** Digits whose value does not fit in 32 bits fail to parse and are refused as a limit. */
  lemma OverflowingLimitRefused(limit: string)
    requires limit != [] && AllDigits(limit) && DigitsValue(limit) > Int32Max
    ensures LimitCount(limit) == 0 && !LimitAccepted(limit)
  {
  }

  function AnonymousSent(channelName: string): string
  {
    "Anonymous message sent successfully to channel " + channelName + "."
  }

  function SignedSent(channelName: string): string
  {
    "Message sent successfully to channel " + channelName + "."
  }

  /** POST api/channel-messages/{channelName}: posts `Text` to the named channel at time `now`. */
  method SendChannelMessage(db: MessagesData, channelName: string, data: Option<ChannelMessageBindingModel>,
                            caller: Option<Principal>, now: int) returns (r: Response)
    requires db.Valid()
    modifies db`channelMessages, db`nextChannelMessageId
    ensures db.Valid()
    ensures data.None? ==> r == Response(BadRequest, Message(MissingMessageData)) && unchanged(db)
    ensures data.Some? && !ChannelMessageModelValid(data.value) ==>
      r == Response(BadRequest, InvalidModelState) && unchanged(db)
    ensures data.Some? && ChannelMessageModelValid(data.value) && !NameTaken(db.channels, channelName) ==>
      r == Response(NotFound, NoContent) && unchanged(db)
    ensures data.Some? && ChannelMessageModelValid(data.value) && NameTaken(db.channels, channelName) ==>
      var sender := ResolveSender(db.users, caller);
      var channel := FindChannelByName(db.channels, channelName).value;
      && r.status == Ok && r.body.Sent?
      && (forall m :: m in old(db.channelMessages) ==> m.id != r.body.id)
      && db.channelMessages == old(db.channelMessages) + [ChannelMessage(r.body.id, sender, channel.id, data.value.text.value, now)]
      && r.body.sender == SenderName(sender)
      && r.body.message == if sender.None? then AnonymousSent(channelName) else SignedSent(channelName)
  {
    if data.None? {
      return Response(BadRequest, Message(MissingMessageData));
    }
    if !ChannelMessageModelValid(data.value) {
      return Response(BadRequest, InvalidModelState);
    }
    var channel := FindChannelByName(db.channels, channelName);
    if channel.None? {
      return Response(NotFound, NoContent);
    }
    var currentUser := ResolveSender(db.users, caller);
    var message := db.AddChannelMessage(currentUser, channel.value.id, data.value.text.value, now);
    db.SaveChanges();
    if message.sender.None? {
      return Response(Ok, Sent(message.id, None, AnonymousSent(channelName)));
    }
    r := Response(Ok, Sent(message.id, Some(message.sender.value.userName), SignedSent(channelName)));
  }
}
