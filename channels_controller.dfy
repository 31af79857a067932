/**
 * `ChannelsController`: list, read, create, rename and delete chat
 * channels (routes `api/channels` and `api/channels/{id}`).
 */
module ChannelsController {
  import opened Wrappers
  import opened Sorting
  import opened Linq
  import opened Models
  import opened BindingModels
  import opened Store
  import opened Responses
  import opened Numerals
  import TextOrder

  /** `OrderBy(c => c.Name)`: ordinal order of the names. */
  predicate NameBefore(a: Channel, b: Channel)
  {
    TextOrder.Less(a.name, b.name)
  }

  /** `new { c.Id, c.Name }` */
  function View(c: Channel): ChannelView
  {
    ChannelView(c.id, c.name)
  }

  /** Ordering channels by name is a strict order. */
  lemma NameBeforeIsStrictOrder()
    ensures Irreflexive(NameBefore) && Transitive(NameBefore)
  {
    forall a: Channel ensures !NameBefore(a, a) {
      TextOrder.LessIrreflexive(a.name);
    }
    forall a: Channel, b: Channel, c: Channel | NameBefore(a, b) && NameBefore(b, c)
      ensures NameBefore(a, c)
    {
      TextOrder.LessTransitive(a.name, b.name, c.name);
    }
  }

  /** Channel names are unique, so any two different channels are ordered by name. */
  lemma ChannelsConnected(channels: seq<Channel>, nextId: int)
    requires ValidChannels(channels, nextId)
    ensures Connected(NameBefore, channels)
  {
    forall i, j | 0 <= i < |channels| && 0 <= j < |channels| && channels[i] != channels[j]
      ensures NameBefore(channels[i], channels[j]) || NameBefore(channels[j], channels[i])
    {
      TextOrder.LessTotal(channels[i].name, channels[j].name);
    }
  }

  /** The projected channel list, ordered by name. */
  function ByName(channels: seq<Channel>): seq<ChannelView>
  {
    Select(InsertionSort(channels, NameBefore), View)
  }

  /** The list holds a view of every channel and nothing else. */
  lemma ByNameListsEveryChannel(channels: seq<Channel>)
    ensures |ByName(channels)| == |channels|
    ensures forall c :: c in channels ==> View(c) in ByName(channels)
    ensures forall v :: v in ByName(channels) ==> Channel(v.id, v.name) in channels
  {
    var sorted := InsertionSort(channels, NameBefore);
    var views := ByName(channels);
    assert |multiset(sorted)| == |multiset(channels)|;
    forall c | c in channels ensures View(c) in views {
      var i :| 0 <= i < |sorted| && sorted[i] == c;
      assert views[i] == View(c);
    }
    forall v | v in views ensures Channel(v.id, v.name) in channels {
      var i :| 0 <= i < |views| && views[i] == v;
      assert Channel(v.id, v.name) == sorted[i];
    }
  }

  /** The list is strictly ascending by name. */
  lemma ByNameIsSorted(channels: seq<Channel>, nextId: int)
    requires ValidChannels(channels, nextId)
    ensures forall i, j :: 0 <= i < j < |ByName(channels)| ==>
      TextOrder.Less(ByName(channels)[i].name, ByName(channels)[j].name)
  {
    NameBeforeIsStrictOrder();
    ChannelsConnected(channels, nextId);
    SortIsSorted(channels, NameBefore);
    var sorted := InsertionSort(channels, NameBefore);
    forall i, j | 0 <= i < j < |ByName(channels)|
      ensures TextOrder.Less(ByName(channels)[i].name, ByName(channels)[j].name)
    {
      assert NameBefore(sorted[i], sorted[j]);
    }
  }

  /** GET api/channels: every channel exactly once, by name. */
  function GetChannels(db: MessagesData): (r: Response)
    reads db
    requires db.Valid()
    ensures r.status == Ok && r.body.ChannelList?
    ensures |r.body.channels| == |db.channels|
    ensures forall c :: c in db.channels ==> View(c) in r.body.channels
    ensures forall v :: v in r.body.channels ==> Channel(v.id, v.name) in db.channels
    ensures forall i, j :: 0 <= i < j < |r.body.channels| ==>
      TextOrder.Less(r.body.channels[i].name, r.body.channels[j].name)
  {
    ByNameListsEveryChannel(db.channels);
    ByNameIsSorted(db.channels, db.nextChannelId);
    Response(Ok, ChannelList(ByName(db.channels)))
  }

  /** GET api/channels/{id}: the channel with that key, or 404. */
  function GetChannelById(db: MessagesData, id: int): (r: Response)
    reads db
    ensures r.status == NotFound <==> !ChannelExists(db.channels, id)
    ensures r.status == NotFound ==> r.body == NoContent
    ensures r.status != NotFound ==>
      && r.status == Ok && r.body.ChannelItem?
      && r.body.channel.id == id && Channel(id, r.body.channel.name) in db.channels
  {
    match FindChannel(db.channels, id)
    case None => Response(NotFound, NoContent)
    case Some(channel) => Response(Ok, ChannelItem(View(channel)))
  }

  const MissingChannelData := "Missing channel data."

  function DuplicatedName(name: string): string
  {
    "Duplicated channel name: " + name
  }

  /** POST api/channels: adds a channel with a valid, unused name. */
  method CreateChannel(db: MessagesData, channelData: Option<ChannelBindingModel>) returns (r: Response)
    requires db.Valid()
    modifies db`channels, db`nextChannelId
    ensures db.Valid()
    ensures channelData.None? ==> r == Response(BadRequest, Message(MissingChannelData)) && unchanged(db)
    ensures channelData.Some? && !ChannelModelValid(channelData.value) ==>
      r == Response(BadRequest, InvalidModelState) && unchanged(db)
    ensures channelData.Some? && ChannelModelValid(channelData.value) ==>
      var name := channelData.value.name.value;
      && (NameTaken(old(db.channels), name) ==>
            r == Response(Conflict, Message(DuplicatedName(name))) && unchanged(db))
      && (!NameTaken(old(db.channels), name) ==>
            && r.status == Created && r.body.ChannelItem? && r.body.channel.name == name
            && !ChannelExists(old(db.channels), r.body.channel.id)
            && db.channels == old(db.channels) + [Channel(r.body.channel.id, name)]
            && MessagesOf(db.channelMessages, r.body.channel.id) == [])
  {
    if channelData.None? {
      return Response(BadRequest, Message(MissingChannelData));
    }
    if !ChannelModelValid(channelData.value) {
      return Response(BadRequest, InvalidModelState);
    }
    var name := channelData.value.name.value;
    if NameTaken(db.channels, name) {
      return Response(Conflict, Message(DuplicatedName(name)));
    }
    var channel := db.AddChannel(name);
    db.SaveChanges();
    NewChannelOwnsNoMessages(db.channelMessages, old(db.channels), db.users, db.nextChannelMessageId, channel.id);
    r := Response(Created, ChannelItem(View(channel)));
  }

  function EditedMessage(id: int): string
  {
    "Channel #" + IntToString(id) + " edited successfully."
  }

  /** PUT api/channels/{id}: renames an existing channel to a valid name no other channel has. */
  method EditChannel(db: MessagesData, id: int, channelData: Option<ChannelBindingModel>) returns (r: Response)
    requires db.Valid()
    modifies db`channels
    ensures db.Valid()
    ensures channelData.None? ==> r == Response(BadRequest, Message(MissingChannelData)) && unchanged(db)
    ensures channelData.Some? && !ChannelExists(old(db.channels), id) ==>
      r == Response(NotFound, NoContent) && unchanged(db)
    ensures channelData.Some? && ChannelExists(old(db.channels), id) && !ChannelModelValid(channelData.value) ==>
      r == Response(BadRequest, InvalidModelState) && unchanged(db)
    ensures channelData.Some? && ChannelExists(old(db.channels), id) && ChannelModelValid(channelData.value) ==>
      var name := channelData.value.name.value;
      && (NameTakenByOther(old(db.channels), name, id) ==>
            r == Response(Conflict, Message(DuplicatedName(name))) && unchanged(db))
      && (!NameTakenByOther(old(db.channels), name, id) ==>
            && r == Response(Ok, Message(EditedMessage(id)))
            && db.channels == WithChannel(old(db.channels), Channel(id, name)))
  {
    if channelData.None? {
      return Response(BadRequest, Message(MissingChannelData));
    }
    var channel := FindChannel(db.channels, id);
    if channel.None? {
      return Response(NotFound, NoContent);
    }
    if !ChannelModelValid(channelData.value) {
      return Response(BadRequest, InvalidModelState);
    }
    var name := channelData.value.name.value;
    if NameTakenByOther(db.channels, name, id) {
      return Response(Conflict, Message(DuplicatedName(name)));
    }
    db.UpdateChannel(channel.value.(name := name));
    db.SaveChanges();
    r := Response(Ok, Message(EditedMessage(id)));
  }

  function NotEmptyMessage(id: int): string
  {
    "Cannot delete channel #" + IntToString(id) + " because it is not empty."
  }

  function DeletedMessage(id: int): string
  {
    "Channel #" + IntToString(id) + " deleted."
  }

  /** DELETE api/channels/{id}: removes an existing channel that has no messages. */
  method DeleteChannel(db: MessagesData, id: int) returns (r: Response)
    requires db.Valid()
    modifies db`channels
    ensures db.Valid()
    ensures !ChannelExists(old(db.channels), id) ==> r == Response(NotFound, NoContent) && unchanged(db)
    ensures ChannelExists(old(db.channels), id) && MessagesOf(db.channelMessages, id) != [] ==>
      r == Response(Conflict, Message(NotEmptyMessage(id))) && unchanged(db)
    ensures ChannelExists(old(db.channels), id) && MessagesOf(db.channelMessages, id) == [] ==>
      && r == Response(Ok, Message(DeletedMessage(id)))
      && db.channels == WithoutChannel(old(db.channels), id)
      && !ChannelExists(db.channels, id)
      && |db.channels| == |old(db.channels)| - 1
  {
    var channel := FindChannel(db.channels, id);
    if channel.None? {
      return Response(NotFound, NoContent);
    }
    if MessagesOf(db.channelMessages, id) != [] {
      return Response(Conflict, Message(NotEmptyMessage(id)));
    }
    ghost var before := db.channels;
    db.RemoveChannel(id);
    db.SaveChanges();
    assert |multiset(db.channels)| == |multiset(before)| - 1;
    r := Response(Ok, Message(DeletedMessage(id)));
  }

  /** Renaming a channel to the name it already has never conflicts. */
  lemma RenameToOwnNameNeverConflicts(channels: seq<Channel>, nextId: int, c: Channel)
    requires ValidChannels(channels, nextId) && c in channels
    ensures !NameTakenByOther(channels, c.name, c.id)
  {
  }
}
