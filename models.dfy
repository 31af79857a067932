/**
 * The entity records (Messages.Data/Models) and the constraints their
 * data annotations put on them.
 */
module Models {
  import opened Wrappers
  import opened Linq
  import opened Sorting

  /**
   * .NET `char.IsWhiteSpace`: the characters `[Required]` trims away
   * (U+0009..U+000D, U+0020, U+0085, U+00A0, U+1680, U+2000..U+200A,
   * U+2028, U+2029, U+202F, U+205F, U+3000).
   */
  predicate IsWhiteSpace(c: char)
  {
    ('\U{9}' <= c <= '\U{D}') || c == ' ' || c == '\U{85}' || c == '\U{A0}' || c == '\U{1680}' ||
    ('\U{2000}' <= c <= '\U{200A}') || c == '\U{2028}' || c == '\U{2029}' ||
    c == '\U{202F}' || c == '\U{205F}' || c == '\U{3000}'
  }

  /** Some character of `s` is not white space (so `s` is not empty). */
  predicate HasText(s: string)
  {
    exists i :: 0 <= i < |s| && !IsWhiteSpace(s[i])
  }

  /** `[Required]` on a string property: not null, not empty, not only white space. */
  predicate Required(s: Option<string>)
  {
    s.Some? && HasText(s.value)
  }

  /** An ASP.NET Identity user. The identity provider owns these; the service only reads them. */
  datatype User = User(id: string, userName: string)

  /** `Channel`: `[Key] Id`; `Name` is `[Required]`, `[MinLength(1)]`, `[MaxLength(100)]` and uniquely indexed. */
  datatype Channel = Channel(id: int, name: string)

  const MinChannelNameLength := 1
  const MaxChannelNameLength := 100

  /** The data annotations on `Channel.Name` (and on `ChannelBindingModel.Name`). */
  predicate ValidChannelName(name: string)
  {
    Required(Some(name)) && MinChannelNameLength <= |name| <= MaxChannelNameLength
  }

  /**
   * `ChannelMessage`: integer key, optional sender (None is an anonymous
   * message), the required channel (held by its key), required text and date.
   */
  datatype ChannelMessage = ChannelMessage(id: int, sender: Option<User>, channelId: int, text: string, dateSent: int)

  /** `UserMessage`: integer key, optional sender, required recipient, text and date. */
  datatype UserMessage = UserMessage(id: int, sender: Option<User>, recipient: User, text: string, dateSent: int)

  /** The `Channel.Messages` navigation collection: the messages whose channel is `channelId`. */
  function MessagesOf(channelMessages: seq<ChannelMessage>, channelId: int): (r: seq<ChannelMessage>)
    ensures forall m :: m in r <==> m in channelMessages && m.channelId == channelId
    ensures Distinct(channelMessages) ==> Distinct(r)
    ensures r == [] <==> forall m :: m in channelMessages ==> m.channelId != channelId
  {
    var inChannel := (m: ChannelMessage) => m.channelId == channelId;
    WhereDistinct(channelMessages, inChannel);
    Where(channelMessages, inChannel)
  }

  /** Some channel has key `id`. */
  predicate ChannelExists(channels: seq<Channel>, id: int)
  {
    exists c :: c in channels && c.id == id
  }

  /** `Any(c => c.Name == name)`: some channel already has exactly this name. */
  predicate NameTaken(channels: seq<Channel>, name: string)
  {
    exists c :: c in channels && c.name == name
  }

  /** `Any(c => c.Name == name && c.Id != id)`: a channel other than `id` has this name. */
  predicate NameTakenByOther(channels: seq<Channel>, name: string, id: int)
  {
    exists c :: c in channels && c.name == name && c.id != id
  }

  /** `Channels.Find(id)`: the channel whose key is `id`, or null. */
  function FindChannel(channels: seq<Channel>, id: int): (r: Option<Channel>)
    ensures r.Some? <==> ChannelExists(channels, id)
    ensures r.Some? ==> r.value in channels && r.value.id == id
  {
    var r := FirstOrDefault(channels, (c: Channel) => c.id == id);
    assert r.None? ==> forall c :: c in channels ==> c.id != id by {
      if r.None? {
        forall c | c in channels ensures c.id != id {
          var i :| 0 <= i < |channels| && channels[i] == c;
        }
      }
    }
    r
  }

  /** `Channels.All().FirstOrDefault(c => c.Name == name)`. */
  function FindChannelByName(channels: seq<Channel>, name: string): (r: Option<Channel>)
    ensures r.Some? <==> NameTaken(channels, name)
    ensures r.Some? ==> r.value in channels && r.value.name == name
  {
    var r := FirstOrDefault(channels, (c: Channel) => c.name == name);
    assert r.None? ==> forall c :: c in channels ==> c.name != name by {
      if r.None? {
        forall c | c in channels ensures c.name != name {
          var i :| 0 <= i < |channels| && channels[i] == c;
        }
      }
    }
    r
  }

  /** `Users.All().FirstOrDefault(u => u.UserName == userName)`. */
  function FindUserByName(users: seq<User>, userName: string): (r: Option<User>)
    ensures r.Some? <==> exists u :: u in users && u.userName == userName
    ensures r.Some? ==> r.value in users && r.value.userName == userName
  {
    var r := FirstOrDefault(users, (u: User) => u.userName == userName);
    assert r.None? ==> forall u :: u in users ==> u.userName != userName by {
      if r.None? {
        forall u | u in users ensures u.userName != userName {
          var i :| 0 <= i < |users| && users[i] == u;
        }
      }
    }
    r
  }

  /** ASP.NET Identity keeps user ids and user names unique. */
  predicate ValidUsers(users: seq<User>)
  {
    && Distinct(users)
    && (forall a, b :: a in users && b in users && a.id == b.id ==> a == b)
    && (forall a, b :: a in users && b in users && a.userName == b.userName ==> a == b)
  }

  /**
   * The Channels table: identity keys below the next one to be assigned,
   * valid names, and no two rows sharing a key or a name (the unique index).
   */
  predicate ValidChannels(channels: seq<Channel>, nextId: int)
  {
    && 1 <= nextId
    && Distinct(channels)
    && (forall c :: c in channels ==> 1 <= c.id < nextId && ValidChannelName(c.name))
    && UniqueIds(channels)
    && (forall a, b :: a in channels && b in channels && a.name == b.name ==> a == b)
  }

  /** The primary key: no two channel rows share an id. */
  predicate UniqueIds(channels: seq<Channel>)
  {
    forall a, b :: a in channels && b in channels && a.id == b.id ==> a == b
  }

  /** The ChannelMessages table: unique keys, required text, and every message's channel and sender exist. */
  predicate ValidChannelMessages(messages: seq<ChannelMessage>, channels: seq<Channel>, users: seq<User>, nextId: int)
  {
    && 1 <= nextId
    && Distinct(messages)
    && (forall m :: m in messages ==>
          && 1 <= m.id < nextId
          && HasText(m.text)
          && ChannelExists(channels, m.channelId)
          && (m.sender.Some? ==> m.sender.value in users))
    && (forall a, b :: a in messages && b in messages && a.id == b.id ==> a == b)
  }

  /** The UserMessages table: unique keys, required text, and every message's recipient and sender exist. */
  predicate ValidUserMessages(messages: seq<UserMessage>, users: seq<User>, nextId: int)
  {
    && 1 <= nextId
    && Distinct(messages)
    && (forall m :: m in messages ==>
          && 1 <= m.id < nextId
          && HasText(m.text)
          && m.recipient in users
          && (m.sender.Some? ==> m.sender.value in users))
    && (forall a, b :: a in messages && b in messages && a.id == b.id ==> a == b)
  }

  /** A channel that no message refers to owns no messages: a new channel starts empty. */
  lemma NewChannelOwnsNoMessages(channelMessages: seq<ChannelMessage>, channels: seq<Channel>, users: seq<User>, nextId: int, id: int)
    requires ValidChannelMessages(channelMessages, channels, users, nextId)
    requires !ChannelExists(channels, id)
    ensures MessagesOf(channelMessages, id) == []
  {
  }

  /** A row with a fresh key and an unused valid name keeps the Channels table valid. */
  lemma AppendChannelValid(channels: seq<Channel>, nextId: int, channel: Channel)
    requires ValidChannels(channels, nextId)
    requires channel.id == nextId && ValidChannelName(channel.name) && !NameTaken(channels, channel.name)
    ensures ValidChannels(channels + [channel], nextId + 1)
  {
  }

  /** Messages whose channels all still exist keep the ChannelMessages table valid. */
  lemma ChannelMessagesKeepValid(messages: seq<ChannelMessage>, channels: seq<Channel>, channels': seq<Channel>, users: seq<User>, nextId: int)
    requires ValidChannelMessages(messages, channels, users, nextId)
    requires forall m :: m in messages ==> ChannelExists(channels', m.channelId)
    ensures ValidChannelMessages(messages, channels', users, nextId)
  {
  }

  /** A message with a fresh key, text, and an existing channel and sender keeps the table valid. */
  lemma AppendChannelMessageValid(messages: seq<ChannelMessage>, channels: seq<Channel>, users: seq<User>, nextId: int, message: ChannelMessage)
    requires ValidChannelMessages(messages, channels, users, nextId)
    requires message.id == nextId && HasText(message.text) && ChannelExists(channels, message.channelId)
    requires message.sender.Some? ==> message.sender.value in users
    ensures ValidChannelMessages(messages + [message], channels, users, nextId + 1)
  {
  }

  /** A message with a fresh key, text, and an existing recipient and sender keeps the table valid. */
  lemma AppendUserMessageValid(messages: seq<UserMessage>, users: seq<User>, nextId: int, message: UserMessage)
    requires ValidUserMessages(messages, users, nextId)
    requires message.id == nextId && HasText(message.text) && message.recipient in users
    requires message.sender.Some? ==> message.sender.value in users
    ensures ValidUserMessages(messages + [message], users, nextId + 1)
  {
  }
}
