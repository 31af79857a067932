/**
 * Client sessions that chain several actions on one store, and what the
 * second action is bound to answer after the first.
 */
module Scenarios {
  import opened Wrappers
  import opened Models
  import opened BindingModels
  import opened Store
  import opened Responses
  import opened Feeds
  import opened SenderResolution
  import Channels = ChannelsController
  import ChannelMessages = ChannelMessagesController
  import UserMessages = UserMessagesController

  /** Creating the same channel twice: the first succeeds, the second conflicts and adds nothing. */
  method CreateTwice(db: MessagesData, name: string) returns (first: Response, second: Response)
    requires db.Valid() && ValidChannelName(name) && !NameTaken(db.channels, name)
    modifies db`channels, db`nextChannelId
    ensures db.Valid()
    ensures first.status == Created && second.status == Conflict
    ensures |db.channels| == |old(db.channels)| + 1
  {
    first := Channels.CreateChannel(db, Some(ChannelBindingModel(Some(name))));
    second := Channels.CreateChannel(db, Some(ChannelBindingModel(Some(name))));
  }

  /** A new channel can be read back by the id it was given. */
  method CreateThenRead(db: MessagesData, name: string) returns (created: Response, read: Response)
    requires db.Valid() && ValidChannelName(name) && !NameTaken(db.channels, name)
    modifies db`channels, db`nextChannelId
    ensures created.status == Created && read.status == Ok
    ensures created.body.ChannelItem? && read.body == created.body
  {
    created := Channels.CreateChannel(db, Some(ChannelBindingModel(Some(name))));
    read := Channels.GetChannelById(db, created.body.channel.id);
    assert Channel(created.body.channel.id, read.body.channel.name) in db.channels;
  }

  /** A new channel has no messages, so deleting it succeeds and leaves the channels as they were. */
  method CreateThenDelete(db: MessagesData, name: string) returns (created: Response, deleted: Response)
    requires db.Valid() && ValidChannelName(name) && !NameTaken(db.channels, name)
    modifies db`channels, db`nextChannelId
    ensures db.Valid()
    ensures created.status == Created && deleted.status == Ok
    ensures created.body.ChannelItem? && !ChannelExists(db.channels, created.body.channel.id)
    ensures multiset(db.channels) == multiset(old(db.channels))
  {
    created := Channels.CreateChannel(db, Some(ChannelBindingModel(Some(name))));
    var channel := Channel(created.body.channel.id, name);
    ghost var withNew := db.channels;
    assert withNew == old(db.channels) + [channel];
    deleted := Channels.DeleteChannel(db, channel.id);
    assert multiset(db.channels) == multiset(withNew) - multiset{channel};
  }

  /** A message posted to a channel shows up in that channel's unlimited feed. */
  method SendThenRead(db: MessagesData, channelName: string, text: string, caller: Option<Principal>, now: int)
    returns (sent: Response, feed: Response)
    requires db.Valid() && NameTaken(db.channels, channelName) && HasText(text)
    modifies db`channelMessages, db`nextChannelMessageId
    ensures sent.status == Ok && sent.body.Sent? && feed.status == Ok && feed.body.MessageList?
    ensures exists v :: v in feed.body.messages && v.id == sent.body.id && v.text == text && v.dateSent == now
  {
    ghost var before := db.channelMessages;
    sent := ChannelMessages.SendChannelMessage(db, channelName, Some(ChannelMessageBindingModel(Some(text))), caller, now);
    var channel := FindChannelByName(db.channels, channelName).value;
    var m := ChannelMessage(sent.body.id, ResolveSender(db.users, caller), channel.id, text, now);
    assert db.channelMessages == before + [m];
    feed := ChannelMessages.GetChannelMessages(db, channelName, None);
    ChannelMessages.PostedMessageIsListed(db.channelMessages, m);
  }

  /** A personal message shows up in the feed its recipient reads. */
  method SendThenReadInbox(db: MessagesData, recipient: User, text: string, caller: Option<Principal>,
                           reader: Principal, now: int) returns (sent: Response, inbox: Response)
    requires db.Valid() && recipient in db.users && HasText(text)
    requires HasText(recipient.userName) && reader.userName == recipient.userName
    modifies db`userMessages, db`nextUserMessageId
    ensures sent.status == Ok && sent.body.Sent? && inbox.status == Ok && inbox.body.MessageList?
    ensures exists v :: v in inbox.body.messages && v.id == sent.body.id && v.text == text && v.dateSent == now
  {
    var data := UserMessageBindingModel(Some(text), Some(recipient.userName));
    ghost var before := db.userMessages;
    sent := UserMessages.SendPersonalMessage(db, Some(data), caller, now);
    assert FindUserByName(db.users, recipient.userName).value == recipient;
    var m := UserMessage(sent.body.id, ResolveSender(db.users, caller), recipient, text, now);
    assert db.userMessages == before + [m];
    inbox := UserMessages.GetPersonalMessages(db, Some(reader));
    UserMessages.AddressedMessageIsListed(db.userMessages, m);
  }
}
