/**
 * The event serializer with images: the two required texts, the injection of the uploaded
 * files into the validated data, creation of an event with its images, and the update that
 * assigns the supplied attributes and only ever adds images.
 */
module EventSerializers {
  import opened Common
  import opened Text
  import opened Seqs

  /** A stored event: title, content and its ISO date. */
  datatype Event = Event(title: string, content: string, date: string)

  /** A stored event image: the event it belongs to and the file's storage name. */
  datatype EventImage = EventImage(event: nat, file: string)

  /** The writable attributes of an event. */
  datatype Field = Title | Content | Date

  function FieldOf(e: Event, f: Field): string
  {
    match f
    case Title => e.title
    case Content => e.content
    case Date => e.date
  }

  /** `setattr(instance, f, v)`: only attribute `f` changes. */
  function SetField(e: Event, f: Field, v: string): (r: Event)
    ensures FieldOf(r, f) == v
    ensures forall g :: g != f ==> FieldOf(r, g) == FieldOf(e, g)
  {
    match f
    case Title => e.(title := v)
    case Content => e.(content := v)
    case Date => e.(date := v)
  }

  /** The event after the assignments `items`, in order. */
  function ApplyAll(e: Event, items: seq<(Field, string)>): Event
  {
    if items == [] then e
    else SetField(ApplyAll(e, items[..|items| - 1]), items[|items| - 1].0, items[|items| - 1].1)
  }

  /** The value last assigned to `f` among `items`, if any. */
  function LastValue(items: seq<(Field, string)>, f: Field): Option<string>
  {
    if items == [] then None
    else if items[|items| - 1].0 == f then Some(items[|items| - 1].1)
    else LastValue(items[..|items| - 1], f)
  }

  /** Each attribute ends with the value last assigned to it, or keeps its old value. */
  lemma {:induction false} ApplyAllExact(e: Event, items: seq<(Field, string)>, f: Field)
    ensures FieldOf(ApplyAll(e, items), f) == GetOr(LastValue(items, f), FieldOf(e, f))
    ensures (forall i :: 0 <= i < |items| ==> items[i].0 != f) ==> LastValue(items, f).None?
  {
    if items != [] {
      ApplyAllExact(e, items[..|items| - 1], f);
      if forall i :: 0 <= i < |items| ==> items[i].0 != f {
        assert forall i :: 0 <= i < |items| - 1 ==> items[..|items| - 1][i] == items[i];
      }
    }
  }

  /** The `setattr` loop of `update`. */
  method AssignAttrs(e: Event, items: seq<(Field, string)>) returns (r: Event)
    ensures r == ApplyAll(e, items)
  {
    r := e;
    var i := 0;
    while i < |items|
      invariant 0 <= i <= |items|
      invariant r == ApplyAll(e, items[..i])
    {
      assert items[..i + 1][..i] == items[..i];
      r := SetField(r, items[i].0, items[i].1);
      i := i + 1;
    }
    assert items[..|items|] == items;
  }

  // ---------------------------------------------------------------- validation

  const MsgRequired := "This field is required."
  const MsgBlank := "This field may not be blank."

  /** A declared required text field: present, and not blank once trimmed. */
  function TextError(v: Option<string>, partial: bool): (e: Option<string>)
    ensures e.None? <==> (v.None? && partial) || (v.Some? && Trim(v.value) != "")
  {
    if v.None? then (if partial then None else Some(MsgRequired))
    else if Trim(v.value) == "" then Some(MsgBlank)
    else None
  }

  /** The validated data: the attributes sent, and the uploaded files when there are any. */
  datatype Internal = Internal(attrs: seq<(Field, string)>, images: Option<seq<string>>)

  /** `to_internal_value`: `images` is added only when the request carries at least one file. */
  function ToInternalValue(attrs: seq<(Field, string)>, files: seq<string>): (r: Internal)
    ensures r.attrs == attrs
    ensures r.images.Some? <==> files != []
    ensures r.images.Some? ==> r.images.value == files
  {
    if files != [] then Internal(attrs, Some(files)) else Internal(attrs, None)
  }

  // ---------------------------------------------------------------- storage

  /** The event and image tables with their identity counters. */
  class EventDb {
    var events: map<nat, Event>
    var images: map<nat, EventImage>
    var nextEvent: nat
    var nextImage: nat

    ghost predicate Valid()
      reads this
    {
      (forall e :: e in events ==> e < nextEvent)
      && (forall k :: k in images ==> k < nextImage && images[k].event in events)
    }

    constructor ()
      ensures Valid() && events == map[] && images == map[]
    {
      events := map[];
      images := map[];
      nextEvent := 0;
      nextImage := 0;
    }

    method InsertEvent(e: Event) returns (id: nat)
      requires Valid()
      modifies this
      ensures Valid()
      ensures id == old(nextEvent) && id !in old(events)
      ensures events == old(events)[id := e] && images == old(images) && nextImage == old(nextImage)
    {
      id := nextEvent;
      events := events[id := e];
      nextEvent := nextEvent + 1;
    }

    /** The loop creating one image row per file for event `event`. */
    method AddImages(event: nat, files: seq<string>)
      requires Valid() && event in events
      modifies this
      ensures Valid()
      ensures events == old(events)
      ensures images == Appended(old(images), old(nextImage), ImageRows(event, files))
    {
      ghost var rows := ImageRows(event, files);
      var i := 0;
      while i < |files|
        invariant 0 <= i <= |files|
        invariant Valid() && events == old(events)
        invariant nextImage == old(nextImage) + i
        invariant images == Appended(old(images), old(nextImage), rows[..i])
      {
        assert rows[..i + 1][..i] == rows[..i];
        images := images[nextImage := EventImage(event, files[i])];
        nextImage := nextImage + 1;
        i := i + 1;
      }
      assert rows[..|files|] == rows;
    }
  }

  /** The image rows that `files` become for `event`, in order. */
  function ImageRows(event: nat, files: seq<string>): (rows: seq<EventImage>)
    ensures |rows| == |files|
    ensures forall i :: 0 <= i < |rows| ==> rows[i] == EventImage(event, files[i])
  {
    seq(|files|, i requires 0 <= i < |files| => EventImage(event, files[i]))
  }

  /** A create: the new event's id, or the exception raised after the event row was written. */
  datatype CreateOutcome = Created(id: nat) | FailedAfterSave(id: nat)

  /**
   * `EventSerializer.create` as written: the event is created, then every image is passed as
   * keyword arguments (`**image`); an uploaded file is not a mapping, so the first image
   * raises and the event stays without images.
   */
  method CreateAsWritten(db: EventDb, title: string, content: string, date: Option<string>,
                         internal: Internal, today: string) returns (r: CreateOutcome)
    requires db.Valid()
    modifies db
    ensures db.Valid()
    ensures r.id == old(db.nextEvent) && r.id !in old(db.events)
    ensures db.events == old(db.events)[r.id := Event(title, content, GetOr(date, today))]
    ensures db.images == old(db.images)
    ensures r.FailedAfterSave? <==> internal.images.Some? && internal.images.value != []
  {
    var id := db.InsertEvent(Event(title, content, GetOr(date, today)));
    if internal.images.Some? && internal.images.value != [] {
      return FailedAfterSave(id);
    }
    r := Created(id);
  }

  /** The create the comment and `update` intend: one image row per uploaded file, linked to the event. */
  method Create(db: EventDb, title: string, content: string, date: Option<string>,
                internal: Internal, today: string) returns (id: nat)
    requires db.Valid()
    modifies db
    ensures db.Valid()
    ensures id == old(db.nextEvent) && id !in old(db.events)
    ensures db.events == old(db.events)[id := Event(title, content, GetOr(date, today))]
    ensures db.images == Appended(old(db.images), old(db.nextImage), ImageRows(id, GetOr(internal.images, [])))
  {
    id := db.InsertEvent(Event(title, content, GetOr(date, today)));
    db.AddImages(id, GetOr(internal.images, []));
  }

  /**
   * `EventSerializer.update`: the supplied attributes are assigned in order and the uploaded
   * files are added; no image is ever removed.
   */
  method Update(db: EventDb, id: nat, internal: Internal)
    requires db.Valid() && id in db.events
    modifies db
    ensures db.Valid()
    ensures db.events == old(db.events)[id := ApplyAll(old(db.events[id]), internal.attrs)]
    ensures db.images == Appended(old(db.images), old(db.nextImage), ImageRows(id, GetOr(internal.images, [])))
  {
    var e := AssignAttrs(db.events[id], internal.attrs);
    if internal.images.Some? {
      db.AddImages(id, internal.images.value);
    } else {
      assert Appended(db.images, db.nextImage, ImageRows(id, [])) == db.images;
    }
    db.events := db.events[id := e];
  }

  /** An update keeps every existing image and adds exactly one image per file, all for this event. */
  lemma UpdateOnlyAddsImages(images: map<nat, EventImage>, next: nat, id: nat, files: seq<string>, k: nat)
    requires forall j :: j in images ==> j < next
    ensures var after := Appended(images, next, ImageRows(id, files));
            && (k in images ==> k in after && after[k] == images[k])
            && (k in after <==> k in images || next <= k < next + |files|)
            && (next <= k < next + |files| ==> after[k] == EventImage(id, files[k - next]))
  {
    AppendedContents(images, next, ImageRows(id, files));
    if next <= k < next + |files| {
      assert Appended(images, next, ImageRows(id, files))[next + (k - next)] == ImageRows(id, files)[k - next];
    }
  }
}
