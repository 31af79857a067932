# Messages REST service: a Dafny model of its request logic

The Messages REST service is an ASP.NET Web API chat backend. It has three
groups of routes:

- **channels** (`api/channels`): list, read, create, rename and delete chat
  channels;
- **channel messages** (`api/channel-messages/{channelName}`): post a message
  to a channel, and read a channel's messages newest first, optionally limited;
- **personal messages** (`api/user/personal-messages`): send a message to a user
  by user name, and read one's own inbox newest first.

Messages may be anonymous: a caller that is not signed in, or whose id names
no user, posts without a sender.

This project models the three controllers' actions over an in-memory unit of
work, `Store.MessagesData`. The store is a class with one table per entity,
each a sequence of rows in storage order, and one identity counter per table with an identity key.
The actions come in two kinds:

- Actions that change the store are methods. Each states, for every branch,
  the response and the new state. On every refusal the state is `unchanged`.
- Queries are functions that read the store. Each states what its answer means:
  - the channel list holds every channel exactly once, in ascending name order
  - a feed is the `n` newest messages of a channel or an inbox, ordered by
    `DateSent` descending and then `Id` descending

The entity records `Channel`, `ChannelMessage` and `UserMessage` are datatypes.
Their data annotations become the table invariant `MessagesData.Valid()`:

- keys are unique
- channel names are required, 1..100 characters long and unique
- message text is required
- every message's channel, recipient and sender exist

Every action preserves `Valid()`.

The modules follow the program's layers:

| layer | modules |
|---|---|
| Messages.Data models | `Models` |
| unit of work | `Store` |
| binding models | `BindingModels` |
| controllers | `ChannelsController`, `ChannelMessagesController`, `UserMessagesController` |
| LINQ operators | `Linq`, `Sorting` |
| ordinal string order | `TextOrder` |
| `int.TryParse` and `int.ToString` | `Numerals` |
| who sends a message | `SenderResolution` |
| response bodies | `Responses` |
| what a feed promises | `Feeds` |
| multi-request sessions | `Scenarios` |

Inputs that the service reads from its environment are parameters:

- the clock `DateTime.Now` is `now: int`
- the caller's identity claims are `caller: Option<Principal>`; `None` is an
  unauthenticated request
- an absent request body or JSON property is `None`

`[Required]` is modelled with the semantics of .NET's `RequiredAttribute`: a
string is refused when it is null, empty, or made only of white space. White
space here is the set `char.IsWhiteSpace` accepts. A channel name is therefore
valid when it has at least one non-white-space character and 1..100 characters.
This is stricter than "1..100 characters", which the length attributes alone
would allow. The model follows the attributes as written.

## Model

| member | source | states |
|---|---|---|
| `ChannelsController.GetChannels` | Messages.RestServices/Controllers/ChannelsController.cs:28-37 | Ok with one entry per channel; every channel's (Id, Name) is listed, nothing else is, and the names are strictly ascending, so no channel appears twice |
| `ChannelsController.ByNameListsEveryChannel` | Messages.RestServices/Controllers/ChannelsController.cs:30-35 | the ordered projection has as many entries as there are channels, holds a view of each, and holds only views of channels |
| `ChannelsController.ByNameIsSorted` | Messages.RestServices/Controllers/ChannelsController.cs:30 | over a valid channel table, the projection is strictly ascending by name, because unique names make the name order total on the table |
| `ChannelsController.NameBeforeIsStrictOrder` | Messages.RestServices/Controllers/ChannelsController.cs:30 | ordering channels by name is irreflexive and transitive |
| `ChannelsController.ChannelsConnected` | Messages.Data/Models/Channel.cs:17-21 | with unique names, any two different channels are ordered by name one way or the other |
| `ChannelsController.GetChannelById` | Messages.RestServices/Controllers/ChannelsController.cs:42-55 | NotFound exactly when no channel has the id; otherwise Ok with that id and the name of a stored channel having it |
| `ChannelsController.CreateChannel` | Messages.RestServices/Controllers/ChannelsController.cs:60-86 | the checks come in source order: a missing body and an invalid name give BadRequest; a name already held gives Conflict "Duplicated channel name: ..."; each of these leaves the store unchanged. Otherwise it answers Created with a fresh id and the name, appends exactly that channel, and the new channel owns no messages |
| `ChannelsController.EditChannel` | Messages.RestServices/Controllers/ChannelsController.cs:91-125 | the checks come in source order: a missing body gives BadRequest, an unknown id NotFound, an invalid name BadRequest, and a name held by another id Conflict; each leaves the store unchanged. Otherwise it answers Ok "Channel #id edited successfully." and replaces only the row with that id |
| `ChannelsController.DeleteChannel` | Messages.RestServices/Controllers/ChannelsController.cs:130-151 | an unknown id gives NotFound, and a channel owning messages gives Conflict "Cannot delete channel #id because it is not empty."; both leave the store unchanged. Otherwise it answers Ok "Channel #id deleted.", removes exactly that row (one fewer channel, no channel with that id) and keeps every other row |
| `ChannelsController.RenameToOwnNameNeverConflicts` | Messages.RestServices/Controllers/ChannelsController.cs:109 | in a valid table, a channel's own name is never held by a channel with a different id |
| `ChannelMessagesController.GetChannelMessages` | Messages.RestServices/Controllers/ChannelMessagesController.cs:30-65 | NotFound exactly when no channel has exactly the name; BadRequest "Limit should be integer in range [1..1000]." exactly when the channel exists and a limit is given that does not parse to 1..1000. On Ok, the items are the feed of the channel's messages: all of them without a limit, the `limit` newest with one, newest first |
| `ChannelMessagesController.NewestViews` | Messages.RestServices/Controllers/ChannelMessagesController.cs:38-64 | filtering the channel's messages, sorting them, taking `n` and projecting gives the feed of `n` entries drawn from the channel's message views |
| `ChannelMessagesController.FeedIsNewestFirst` | Messages.RestServices/Controllers/ChannelMessagesController.cs:38-41 | the sorted query is a permutation of the channel's messages, ordered by DateSent descending and then Id descending |
| `ChannelMessagesController.NewerMessageIsStrictOrder` | Messages.RestServices/Controllers/ChannelMessagesController.cs:40-41 | the date-then-id descending order on channel messages is irreflexive and transitive |
| `ChannelMessagesController.MessagesConnected` | Messages.Data/Models/ChannelMessage.cs:8 | with unique message ids, any two different messages of a channel are ordered |
| `ChannelMessagesController.FeedIgnoresStorageOrder` | Messages.RestServices/Controllers/ChannelMessagesController.cs:38-41 | any two storage orders of the same valid message table give the same feed |
| `ChannelMessagesController.PostedMessageIsListed` | Messages.RestServices/Controllers/ChannelMessagesController.cs:38-39 | every stored message of a channel is among the views that channel's feed is drawn from |
| `ChannelMessagesController.LimitCount` | Messages.RestServices/Controllers/ChannelMessagesController.cs:45-46 | a limit that parses counts as the parsed value, and one that fails to parse counts as 0; either way it is a 32-bit integer |
| `ChannelMessagesController.IntegerLimit` | Messages.RestServices/Controllers/ChannelMessagesController.cs:43-54 | the decimal text of any 32-bit integer k reads back as k, and it is accepted as a limit exactly when 1 <= k <= 1000; "0" and "1001" are refused |
| `ChannelMessagesController.NonNumericLimitRefused` | Messages.RestServices/Controllers/ChannelMessagesController.cs:45-53 | a limit with no decimal digit in it, such as "" or "invalid", counts as 0 and is refused |
| `ChannelMessagesController.OverflowingLimitRefused` | Messages.RestServices/Controllers/ChannelMessagesController.cs:45-53 | a limit of digits whose value exceeds Int32.MaxValue fails to parse, counts as 0 and is refused |
| `ChannelMessagesController.SendChannelMessage` | Messages.RestServices/Controllers/ChannelMessagesController.cs:70-121 | the checks come in source order: a missing body gives BadRequest "Missing message data.", invalid text BadRequest, and an unknown channel NotFound; each leaves the store unchanged. Otherwise it appends exactly one message with a fresh id, the resolved sender, that channel, the text and `now`, and answers Ok. The reply carries the sender's user name and "Message sent successfully to channel ...", or no sender and "Anonymous message sent successfully to channel ..." |
| `UserMessagesController.GetPersonalMessages` | Messages.RestServices/Controllers/UserMessagesController.cs:28-48 | Unauthorized exactly when there is no caller; otherwise Ok with the views of every message addressed to the caller's user name, newest first |
| `UserMessagesController.Inbox` | Messages.RestServices/Controllers/UserMessagesController.cs:35-36 | a message is in the inbox exactly when it is stored and its recipient has the user name; no duplicates are introduced |
| `UserMessagesController.AddressedMessageIsListed` | Messages.RestServices/Controllers/UserMessagesController.cs:35-36 | every stored message is among the views the inbox of its recipient's user name is drawn from |
| `UserMessagesController.InboxViews` | Messages.RestServices/Controllers/UserMessagesController.cs:35-47 | the sorted, projected inbox is the feed of all of the inbox's message views, newest first |
| `UserMessagesController.FeedIsNewestFirst` | Messages.RestServices/Controllers/UserMessagesController.cs:37-38 | the sorted query is a permutation of the inbox, ordered by DateSent descending and then Id descending |
| `UserMessagesController.NewerMessageIsStrictOrder` | Messages.RestServices/Controllers/UserMessagesController.cs:37-38 | the date-then-id descending order on personal messages is irreflexive and transitive |
| `UserMessagesController.FeedIgnoresStorageOrder` | Messages.RestServices/Controllers/UserMessagesController.cs:35-38 | any two storage orders of the same valid personal message table give the same inbox feed |
| `UserMessagesController.SendPersonalMessage` | Messages.RestServices/Controllers/UserMessagesController.cs:53-104 | a missing body gives BadRequest "Missing message data."; a missing or blank text or recipient gives BadRequest; a recipient name no user has gives BadRequest "Recipient user ... does not exists." rather than NotFound; each leaves the store unchanged. Otherwise it appends exactly one message with a fresh id, the resolved sender, that recipient, the text and `now`. The reply distinguishes an anonymous send from an attributed one |
| `Feeds.SortedTakeIsFeed` | Messages.RestServices/Controllers/ChannelMessagesController.cs:38-49 | the first `n` of a newest-first permutation of some views form the feed of `n` entries: at most `n`, all of them when `n` covers them, none omitted that is newer than one listed |
| `SenderResolution.ResolveSender` | Messages.RestServices/Controllers/ChannelMessagesController.cs:89-90 | there is a sender exactly when there is a caller and a user has the caller's id, and then it is that stored user |
| `Responses.SenderName` | Messages.RestServices/Controllers/ChannelMessagesController.cs:63 | a view has no sender name exactly when the message is anonymous; otherwise it has the sender's user name |
| `Models.MessagesOf` | Messages.Data/Models/Channel.cs:23 | a channel's message collection holds exactly the stored messages whose channel is that channel; it is empty exactly when no message refers to the channel |
| `Models.NewChannelOwnsNoMessages` | Messages.Data/Models/Channel.cs:9-12 | a channel with an id no stored channel has owns no messages, so a freshly created channel is empty |
| `Models.FindChannel` | Messages.RestServices/Controllers/ChannelsController.cs:44 | `Find(id)` finds a channel exactly when one has that id, and returns a stored channel with that id |
| `Models.FindChannelByName` | Messages.RestServices/Controllers/ChannelMessagesController.cs:32 | the lookup by exact name succeeds exactly when a channel has that name, and returns a stored channel with it |
| `Models.FindUserByName` | Messages.RestServices/Controllers/UserMessagesController.cs:65-66 | the lookup by user name succeeds exactly when a user has that name, and returns a stored user with it |
| `Models.AppendChannelValid` | Messages.Data/Models/Channel.cs:14-21 | appending a channel with the next key and a valid, unused name keeps keys unique, names valid and names unique |
| `Models.AppendChannelMessageValid` | Messages.Data/Models/ChannelMessage.cs:8-19 | appending a message with the next key, text, an existing channel and an existing or absent sender keeps the table valid |
| `Models.AppendUserMessageValid` | Messages.Data/Models/UserMessage.cs:8-19 | appending a message with the next key, text, an existing recipient and an existing or absent sender keeps the table valid |
| `Models.ChannelMessagesKeepValid` | Messages.Data/Models/ChannelMessage.cs:12-13 | a change to the channels that keeps every referenced channel keeps the message table valid |
| `BindingModels.ChannelModelValidIffValidName` | Messages.RestServices/Models/ChannelBindingModel.cs:7-10 | a channel body passes validation exactly when it has a name that satisfies the annotations on `Channel.Name` |
| `Store.MessagesData.constructor` | Messages.Data/UnitOfWork/IMessagesData.cs:8-21 | an empty store over a valid set of users is valid |
| `Store.MessagesData.AddChannel` | Messages.RestServices/Controllers/ChannelsController.cs:78-80 | appends exactly one channel with the name and a key no channel had, keeping the store valid |
| `Store.MessagesData.UpdateChannel` | Messages.RestServices/Controllers/ChannelsController.cs:115-117 | replaces the row with the same key and nothing else, keeping the store valid |
| `Store.MessagesData.RemoveChannel` | Messages.RestServices/Controllers/ChannelsController.cs:144-145 | removes the rows with that key and keeps the others, keeping the store valid (no message is left pointing at a removed channel) |
| `Store.MessagesData.AddChannelMessage` | Messages.RestServices/Controllers/ChannelMessagesController.cs:92-100 | appends exactly one message with the given fields and a key no message had, keeping the store valid |
| `Store.MessagesData.AddUserMessage` | Messages.RestServices/Controllers/UserMessagesController.cs:75-83 | appends exactly one message with the given fields and a key no message had, keeping the store valid |
| `Store.WithChannel` | Messages.RestServices/Controllers/ChannelsController.cs:115-116 | the update keeps the number and order of the rows, replaces every row whose key is the edited channel's key by the edited channel, and leaves every other row as it was |
| `Store.MessagesData.SaveChanges` | Messages.Data/UnitOfWork/MessagesData.cs:64-67 | committing changes nothing in the in-memory store, whose tables already hold every added row |
| `Store.WithoutChannel` | Messages.RestServices/Controllers/ChannelsController.cs:144 | the rows left after removing a key are the rows with other keys; with unique keys, exactly one occurrence of the removed channel goes |
| `Numerals.TryParseInt32` | Messages.RestServices/Controllers/ChannelMessagesController.cs:46 | a successful parse yields a value within the 32-bit range |
| `Numerals.ParseSignedDigits` | Messages.RestServices/Controllers/ChannelMessagesController.cs:46 | white space, an optional `+` or `-`, one or more digits (leading zeros allowed) and white space parse to the signed value of the digits whenever it fits in 32 bits |
| `Numerals.TrimSignedDigits` | Messages.RestServices/Controllers/ChannelMessagesController.cs:46 | trimming the white space around a sign and digits leaves exactly the sign and the digits |
| `Numerals.ParseSignAndDigits` | Messages.RestServices/Controllers/ChannelMessagesController.cs:46 | once trimmed, an optional sign followed by digits reads as their signed value when it fits in 32 bits |
| `Numerals.ParseIntToString` | Messages.RestServices/Controllers/ChannelsController.cs:122 | the decimal text of a 32-bit integer, as the edit and delete messages print the id, parses back to the same integer |
| `TextOrder.LessMeansLexicallyBefore` | Messages.RestServices/Controllers/ChannelsController.cs:30 | the recursive name comparison agrees with lexicographic order: a proper prefix, or a smaller character at the first difference |
| `TextOrder.LessTotal` | Messages.RestServices/Controllers/ChannelsController.cs:30 | any two different names are ordered one way or the other |
| `TextOrder.LessTransitive` | Messages.RestServices/Controllers/ChannelsController.cs:30 | the name order is transitive |
| `Sorting.InsertionSort` | Messages.RestServices/Controllers/ChannelMessagesController.cs:40-41 | `OrderBy` / `OrderByDescending().ThenByDescending()` return a permutation of their input: the same elements, each as often |
| `Sorting.Take` | Messages.RestServices/Controllers/ChannelMessagesController.cs:49 | `Take(n)` returns a prefix of the input, of length `n` or the whole input when it is shorter |
| `Sorting.SortIsSorted` | Messages.RestServices/Controllers/ChannelMessagesController.cs:40-41 | sorting a duplicate-free sequence over which a transitive order is total yields a sequence ordered by it |
| `Sorting.SortedPermutationIsUnique` | Messages.RestServices/Controllers/ChannelMessagesController.cs:40-41 | two permutations of the same elements, both sorted by the same strict order, are equal; so stability of `OrderBy` never shows when keys are unique |
| `Linq.FirstOrDefault` | Messages.RestServices/Controllers/ChannelMessagesController.cs:32 | a result exists exactly when some row matches, and it is the first matching row |
| `Linq.Where` | Messages.RestServices/Controllers/ChannelMessagesController.cs:39 | the result holds exactly the matching rows, is a sub-multiset of the input, and is empty exactly when no row matches |
| `Linq.WhereMultiplicity` | Messages.RestServices/Controllers/ChannelMessagesController.cs:39 | every occurrence of a matching row is kept and no occurrence of any other row |
| `Linq.Select` | Messages.RestServices/Controllers/ChannelsController.cs:31-35 | the projection has one element per row, and the element at each position is the projection of the row at that position |
| `Linq.SelectPermutation` | Messages.RestServices/Controllers/ChannelMessagesController.cs:58-64 | projecting two permutations of the same rows gives permutations of the same projections |
| `Scenarios.CreateTwice` | Messages.RestServices/Controllers/ChannelsController.cs:72-85 | creating a new valid name succeeds, creating it again conflicts, and the channel count grows by exactly one |
| `Scenarios.CreateThenRead` | Messages.RestServices/Controllers/ChannelsController.cs:44-54 | a created channel is read back by its id with the same id and name |
| `Scenarios.CreateThenDelete` | Messages.RestServices/Controllers/ChannelsController.cs:138-145 | a created channel has no messages, so deleting it succeeds, its id is gone and the channels are those before the creation |
| `Scenarios.SendThenRead` | Messages.RestServices/Controllers/ChannelMessagesController.cs:92-100 | a message posted to a channel appears in that channel's unlimited feed with its id, text and date |
| `Scenarios.SendThenReadInbox` | Messages.RestServices/Controllers/UserMessagesController.cs:75-83 | a personal message appears in the feed its recipient reads, with its id, text and date |

## Left out

- HTTP and Web API plumbing is not modelled: routing, `IHttpActionResult`, JSON serialisation, and the location header of `CreatedAtRoute`. A response is a status plus a body datatype. The contents of the `ModelState` error dictionary are not modelled; the body is just `InvalidModelState`.
- The Entity Framework unit of work is a fixed in-memory store. This covers `MessagesData.cs` (its `DbContext` and its reflection-based repository lookup) and the `IMessagesData` interface.
  - `SaveChanges` commits nothing further.
  - Identity keys are assigned on `Add`, not at `SaveChanges`. Every `Add` in the controllers is followed directly by `SaveChanges`, so the difference cannot be observed.
- The database enforces the unique channel name index, and the foreign keys of inserted messages, by failing `SaveChanges`. That failure path is never reached from the controllers, which check first. So `Store.MessagesData.AddChannel` and `UpdateChannel` require a free name, which the controllers have already checked.
- `Store.MessagesData.RemoveChannel` requires that the channel owns no messages, because the controller checks that first (Messages.RestServices/Controllers/ChannelsController.cs:138-142). What the database would do on deleting a channel that still has messages is not modelled.
- Ids are C# `int` identity columns, but the model's identity counters are unbounded integers. Running out of 32-bit identity values, where an insert would fail at `SaveChanges`, is not modelled.
- Concurrency is not modelled. Two requests racing between the check and the insert or delete, and the index rejecting the loser, are out of scope; the model is sequential.
- ASP.NET Identity (`IdentityConfig.cs`) is left out: registration, login, tokens and user-name policy. The Users table is fixed when the store is built. User names are not required to be non-blank, so `Scenarios.SendThenReadInbox` asks for a non-blank recipient name.
- The clock is the parameter `now`. A date is an integer, and only its order is used.
- Names are ordered ordinally, by character code. The database collation that SQL Server applies to `OrderBy(c => c.Name)` and to the name comparisons is not visible. Name comparisons are exact, whereas a case-insensitive collation would also match names that differ only in case.
- Length limits count Dafny characters, which are Unicode scalar values. .NET counts UTF-16 code units, so a name with characters outside the Basic Multilingual Plane is longer in .NET than in the model.
- `ChannelMessageBindingModel.cs` is not part of this model. Its `Text` is taken to be `[Required]`, like the `Text` of `UserMessageBindingModel`.
- `int.TryParse` is modelled with the invariant culture: white space U+0009..U+000D and U+0020, an ASCII `+` or `-`, ASCII digits, and the Int32 range. Culture-specific sign symbols are not modelled.
- `Channel.Messages` is not a stored collection. It is the query `Models.MessagesOf` over the message table, which is what lazy loading of the navigation property returns.
- Tests, mocks and `UnitTestsWithMocking.cs` are not modelled. The integration tests only informed which properties are stated.
