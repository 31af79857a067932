/**
 * `UserMessagesController`: an authenticated user reads the personal
 * messages addressed to them, newest first, and anyone sends a personal
 * message to a user by name (route `api/user/personal-messages`).
 */
module UserMessagesController {
  import opened Wrappers
  import opened Sorting
  import opened Linq
  import opened Models
  import opened BindingModels
  import opened Store
  import opened Responses
  import opened Feeds
  import opened SenderResolution

  /** `OrderByDescending(m => m.DateSent).ThenByDescending(m => m.Id)` */
  predicate NewerMessage(a: UserMessage, b: UserMessage)
  {
    Newer(a.dateSent, a.id, b.dateSent, b.id)
  }

  /** `new MessageViewModel { Id, Text, DateSent, Sender }` */
  function ToView(m: UserMessage): MessageView
  {
    MessageView(m.id, m.text, m.dateSent, SenderName(m.sender))
  }

  /** `Where(m => m.RecipientUser.UserName == userName)`: the messages addressed to `userName`. */
  function Inbox(messages: seq<UserMessage>, userName: string): (r: seq<UserMessage>)
    ensures forall m :: m in r <==> m in messages && m.recipient.userName == userName
    ensures Distinct(messages) ==> Distinct(r)
  {
    var addressed := (m: UserMessage) => m.recipient.userName == userName;
    WhereDistinct(messages, addressed);
    Where(messages, addressed)
  }

  /** The inbox in the order the query sorts it. */
  function Feed(messages: seq<UserMessage>, userName: string): seq<UserMessage>
  {
    InsertionSort(Inbox(messages, userName), NewerMessage)
  }

  /** Ordering messages newest first is a strict order. */
  lemma NewerMessageIsStrictOrder()
    ensures Irreflexive(NewerMessage) && Transitive(NewerMessage)
  {
  }

  /** The sorted messages are the inbox, newest first. */
  lemma FeedIsNewestFirst(messages: seq<UserMessage>, users: seq<User>, nextId: int, userName: string)
    requires ValidUserMessages(messages, users, nextId)
    ensures SortedBy(NewerMessage, Feed(messages, userName))
    ensures multiset(Feed(messages, userName)) == multiset(Inbox(messages, userName))
  {
    var inbox := Inbox(messages, userName);
    NewerMessageIsStrictOrder();
    forall i, j | 0 <= i < |inbox| && 0 <= j < |inbox| && inbox[i] != inbox[j]
      ensures NewerMessage(inbox[i], inbox[j]) || NewerMessage(inbox[j], inbox[i])
    {
      assert inbox[i] in messages && inbox[j] in messages;
    }
    SortIsSorted(inbox, NewerMessage);
  }

  /** The projected feed is the whole inbox's views, newest first. */
  lemma InboxViews(messages: seq<UserMessage>, users: seq<User>, nextId: int, userName: string)
    requires ValidUserMessages(messages, users, nextId)
    ensures var views := Select(Inbox(messages, userName), ToView);
      IsFeedOf(Select(Feed(messages, userName), ToView), views, |views|)
  {
    var feed := Feed(messages, userName);
    var inbox := Inbox(messages, userName);
    FeedIsNewestFirst(messages, users, nextId, userName);
    SelectPermutation(feed, inbox, ToView);
    var views := Select(feed, ToView);
    assert NewestFirst(views) by {
      forall i, j | 0 <= i < j < |views| ensures ViewNewer(views[i], views[j]) {
        assert NewerMessage(feed[i], feed[j]);
      }
    }
    assert |feed| == |inbox| by {
      assert |multiset(feed)| == |multiset(inbox)|;
    }
    SortedTakeIsFeed(views, Select(inbox, ToView), |inbox|);
  }

  /**
   * Where the rows are stored does not matter: two orderings of the same
   * table give the same feed.
   */
  lemma {:induction false} FeedIgnoresStorageOrder(messages: seq<UserMessage>, messages': seq<UserMessage>,
                                                   users: seq<User>, nextId: int, userName: string)
    requires ValidUserMessages(messages, users, nextId)
    requires ValidUserMessages(messages', users, nextId)
    requires multiset(messages) == multiset(messages')
    ensures Feed(messages, userName) == Feed(messages', userName)
  {
    assert forall m :: m in messages <==> m in messages' by {
      assert forall m :: m in messages <==> m in multiset(messages');
    }
    SameElementsPermutation(Inbox(messages, userName), Inbox(messages', userName));
    FeedIsNewestFirst(messages, users, nextId, userName);
    FeedIsNewestFirst(messages', users, nextId, userName);
    NewerMessageIsStrictOrder();
    SortedPermutationIsUnique(Feed(messages, userName), Feed(messages', userName), NewerMessage);
  }

  /** Every stored message addressed to a user name is among the views its inbox is drawn from. */
  lemma AddressedMessageIsListed(messages: seq<UserMessage>, m: UserMessage)
    requires m in messages
    ensures ToView(m) in Select(Inbox(messages, m.recipient.userName), ToView)
  {
    var inbox := Inbox(messages, m.recipient.userName);
    var i :| 0 <= i < |inbox| && inbox[i] == m;
    assert Select(inbox, ToView)[i] == ToView(m);
  }

  /**
   * GET api/user/personal-messages, behind `[Authorize]`: the messages
   * addressed to the caller's user name, newest first.
   */
  function GetPersonalMessages(db: MessagesData, caller: Option<Principal>): (r: Response)
    reads db
    requires db.Valid()
    ensures r.status == Unauthorized <==> caller.None?
    ensures caller.None? ==> r.body == NoContent
    ensures caller.Some? ==>
      var views := Select(Inbox(db.userMessages, caller.value.userName), ToView);
      && r.status == Ok && r.body.MessageList?
      && IsFeedOf(r.body.messages, views, |views|)
  {
    match caller
    case None => Response(Unauthorized, NoContent)
    case Some(p) =>
      InboxViews(db.userMessages, db.users, db.nextUserMessageId, p.userName);
      Response(Ok, MessageList(Select(Feed(db.userMessages, p.userName), ToView)))
  }

  function UnknownRecipient(recipient: string): string
  {
    "Recipient user " + recipient + " does not exists."
  }

  function AnonymousSent(recipient: string): string
  {
    "Anonymous message sent successfully to user " + recipient + "."
  }

  function SignedSent(recipient: string): string
  {
    "Message sent successfully to user " + recipient + "."
  }

  /** POST api/user/personal-messages: sends `Text` to the user named `Recipient` at time `now`. */
  method SendPersonalMessage(db: MessagesData, data: Option<UserMessageBindingModel>,
                             caller: Option<Principal>, now: int) returns (r: Response)
    requires db.Valid()
    modifies db`userMessages, db`nextUserMessageId
    ensures db.Valid()
    ensures data.None? ==> r == Response(BadRequest, Message(MissingMessageData)) && unchanged(db)
    ensures data.Some? && !UserMessageModelValid(data.value) ==>
      r == Response(BadRequest, InvalidModelState) && unchanged(db)
    ensures data.Some? && UserMessageModelValid(data.value) ==>
      var recipient := data.value.recipient.value;
      var recipientUser := FindUserByName(db.users, recipient);
      && (recipientUser.None? ==>
            r == Response(BadRequest, Message(UnknownRecipient(recipient))) && unchanged(db))
      && (recipientUser.Some? ==>
            var sender := ResolveSender(db.users, caller);
            && r.status == Ok && r.body.Sent?
            && (forall m :: m in old(db.userMessages) ==> m.id != r.body.id)
            && db.userMessages == old(db.userMessages) + [UserMessage(r.body.id, sender, recipientUser.value, data.value.text.value, now)]
            && r.body.sender == SenderName(sender)
            && r.body.message == if sender.None? then AnonymousSent(recipient) else SignedSent(recipient))
  {
    if data.None? {
      return Response(BadRequest, Message(MissingMessageData));
    }
    if !UserMessageModelValid(data.value) {
      return Response(BadRequest, InvalidModelState);
    }
    var recipientUser := FindUserByName(db.users, data.value.recipient.value);
    if recipientUser.None? {
      return Response(BadRequest, Message(UnknownRecipient(data.value.recipient.value)));
    }
    var currentUser := ResolveSender(db.users, caller);
    var message := db.AddUserMessage(currentUser, recipientUser.value, data.value.text.value, now);
    db.SaveChanges();
    if message.sender.None? {
      return Response(Ok, Sent(message.id, None, AnonymousSent(recipientUser.value.userName)));
    }
    r := Response(Ok, Sent(message.id, Some(message.sender.value.userName), SignedSent(recipientUser.value.userName)));
  }
}
