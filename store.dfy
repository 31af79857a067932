/**
 * The unit of work the controllers are given (`IMessagesData`), as an
 * in-memory store: one table per entity, rows in storage order, and one
 * identity counter per table. `SaveChanges` commits nothing more: every
 * change is visible as soon as it is made.
 */
module Store {
  import opened Wrappers
  import opened Linq
  import opened Models
  import opened Sorting

  /** The channels left after removing the row whose key is `id`. */
  function WithoutChannel(channels: seq<Channel>, id: int): (r: seq<Channel>)
    ensures forall c :: c in r <==> c in channels && c.id != id
    ensures Distinct(channels) ==> Distinct(r)
    ensures forall x :: x in channels && x.id == id && Distinct(channels) && UniqueIds(channels) ==>
      multiset(r) == multiset(channels) - multiset{x}
  {
    var keep := (c: Channel) => c.id != id;
    WhereDistinct(channels, keep);
    assert forall x :: x in channels && x.id == id && Distinct(channels) && UniqueIds(channels) ==>
      multiset(Where(channels, keep)) == multiset(channels) - multiset{x} by {
      forall x | x in channels && x.id == id && Distinct(channels) && UniqueIds(channels)
        ensures multiset(Where(channels, keep)) == multiset(channels) - multiset{x}
      {
        WhereDropsOne(channels, keep, x);
      }
    }
    Where(channels, keep)
  }

  /** The channels with the row whose key is `channel.id` replaced by `channel`. */
  function WithChannel(channels: seq<Channel>, channel: Channel): (r: seq<Channel>)
    ensures |r| == |channels|
    ensures forall i :: 0 <= i < |r| ==> r[i] == if channels[i].id == channel.id then channel else channels[i]
  {
    seq(|channels|, i requires 0 <= i < |channels| => if channels[i].id == channel.id then channel else channels[i])
  }

  class MessagesData {
    var users: seq<User>
    var channels: seq<Channel>
    var channelMessages: seq<ChannelMessage>
    var userMessages: seq<UserMessage>
    var nextChannelId: int
    var nextChannelMessageId: int
    var nextUserMessageId: int

    /** The database constraints: keys, required columns, the unique channel name, foreign keys. */
    ghost predicate Valid()
      reads this
    {
      && ValidUsers(users)
      && ValidChannels(channels, nextChannelId)
      && ValidChannelMessages(channelMessages, channels, users, nextChannelMessageId)
      && ValidUserMessages(userMessages, users, nextUserMessageId)
    }

    /** An empty database whose identity provider knows `users`. */
    constructor (users: seq<User>)
      requires ValidUsers(users)
      ensures Valid()
      ensures this.users == users && channels == [] && channelMessages == [] && userMessages == []
    {
      this.users := users;
      channels, channelMessages, userMessages := [], [], [];
      nextChannelId, nextChannelMessageId, nextUserMessageId := 1, 1, 1;
    }

    /** `Channels.Add`: the new row gets the next identity key. */
    method AddChannel(name: string) returns (channel: Channel)
      requires Valid()
      requires ValidChannelName(name) && !NameTaken(channels, name)
      modifies this`channels, this`nextChannelId
      ensures Valid()
      ensures channel.name == name && !ChannelExists(old(channels), channel.id)
      ensures channels == old(channels) + [channel]
    {
      channel := Channel(nextChannelId, name);
      AppendChannelValid(channels, nextChannelId, channel);
      ChannelMessagesKeepValid(channelMessages, channels, channels + [channel], users, nextChannelMessageId);
      channels := channels + [channel];
      nextChannelId := nextChannelId + 1;
    }

    /** `Channels.Update`: the row with the same key is replaced. */
    method UpdateChannel(channel: Channel)
      requires Valid()
      requires ChannelExists(channels, channel.id)
      requires ValidChannelName(channel.name) && !NameTakenByOther(channels, channel.name, channel.id)
      modifies this`channels
      ensures Valid()
      ensures channels == WithChannel(old(channels), channel)
    {
      var updated := WithChannel(channels, channel);
      forall c | c in updated ensures c == channel || (c in channels && c.id != channel.id) {
        var i :| 0 <= i < |updated| && updated[i] == c;
      }
      assert channel in updated by {
        var c :| c in channels && c.id == channel.id;
        var i :| 0 <= i < |channels| && channels[i] == c;
        assert updated[i] == channel;
      }
      forall c | c in channels && c.id != channel.id ensures c in updated {
        var i :| 0 <= i < |channels| && channels[i] == c;
        assert updated[i] == c;
      }
      ChannelMessagesKeepValid(channelMessages, channels, updated, users, nextChannelMessageId);
      channels := updated;
    }

    /** `Channels.Remove`: only allowed when no message refers to the channel (the foreign key). */
    method RemoveChannel(id: int)
      requires Valid()
      requires MessagesOf(channelMessages, id) == []
      modifies this`channels
      ensures Valid()
      ensures channels == WithoutChannel(old(channels), id)
    {
      var remaining := WithoutChannel(channels, id);
      forall m | m in channelMessages ensures ChannelExists(remaining, m.channelId) {
        var c :| c in channels && c.id == m.channelId;
        assert c.id != id;
      }
      ChannelMessagesKeepValid(channelMessages, channels, remaining, users, nextChannelMessageId);
      channels := remaining;
    }

    /** `ChannelMessages.Add`: the new row gets the next identity key. */
    method AddChannelMessage(sender: Option<User>, channelId: int, text: string, dateSent: int)
      returns (message: ChannelMessage)
      requires Valid()
      requires sender.Some? ==> sender.value in users
      requires ChannelExists(channels, channelId) && HasText(text)
      modifies this`channelMessages, this`nextChannelMessageId
      ensures Valid()
      ensures message.sender == sender && message.channelId == channelId
      ensures message.text == text && message.dateSent == dateSent
      ensures forall m :: m in old(channelMessages) ==> m.id != message.id
      ensures channelMessages == old(channelMessages) + [message]
    {
      message := ChannelMessage(nextChannelMessageId, sender, channelId, text, dateSent);
      AppendChannelMessageValid(channelMessages, channels, users, nextChannelMessageId, message);
      channelMessages := channelMessages + [message];
      nextChannelMessageId := nextChannelMessageId + 1;
    }

    /** `UserMessages.Add`: the new row gets the next identity key. */
    method AddUserMessage(sender: Option<User>, recipient: User, text: string, dateSent: int)
      returns (message: UserMessage)
      requires Valid()
      requires sender.Some? ==> sender.value in users
      requires recipient in users && HasText(text)
      modifies this`userMessages, this`nextUserMessageId
      ensures Valid()
      ensures message.sender == sender && message.recipient == recipient
      ensures message.text == text && message.dateSent == dateSent
      ensures forall m :: m in old(userMessages) ==> m.id != message.id
      ensures userMessages == old(userMessages) + [message]
    {
      message := UserMessage(nextUserMessageId, sender, recipient, text, dateSent);
      AppendUserMessageValid(userMessages, users, nextUserMessageId, message);
      userMessages := userMessages + [message];
      nextUserMessageId := nextUserMessageId + 1;
    }

    /** `SaveChanges`: the in-memory tables are already committed. */
    method SaveChanges()
      ensures unchanged(this)
    {
    }
  }
}
