/**
  The MQTT source of `mqtt.rs`: publishes already read from the network are drained into a
  batch of rows, with a cache for the metadata that is attached to them.
 */
module Mqtt {
  import opened Common

  datatype Json = Object(fields: map<string, Json>) | Array(items: seq<Json>) | Scalar(text: string)

  type Record = map<string, Json>

  type Payload = seq<Byte>

  datatype Format = JsonFormat | Binary | Delimited | Protobuf | EdgeX

  /**
    A JSON object at the front of a payload: its members in order, and the bytes after it. The
    value of a member is `None` if it can be skipped but not parsed, such as a number too large
    for a float or a string with a lone surrogate.
   */
  datatype Front = Front(members: seq<Member>, rest: Payload)
  datatype Member = Member(name: string, value: Option<Json>)

  /** A parsed EdgeX event: its own metadata, which has an entry for every reading, and its readings. */
  datatype EdgeXEvent = EdgeXEvent(own: Record, readings: Record)

  /** The decoders of other modules, and the field mask of the source. */
  datatype Lib = Lib(
    parseMap: Payload -> Option<Record>,
    parse: Payload -> Option<Json>,
    front: Payload -> Option<Front>,
    mask: Option<set<string>>,
    text: Payload -> Json,
    line: Payload -> Option<Record>,
    message: Payload -> Option<Record>,
    edgex: Payload -> Option<EdgeXEvent>)

  predicate JsonSpace(b: Byte) {
    b == 0x20 || b == 0x09 || b == 0x0A || b == 0x0D
  }

  /** Nothing but white space. */
  predicate Blank(bs: Payload) {
    forall i | 0 <= i < |bs| :: JsonSpace(bs[i])
  }

  predicate AllParsed(members: seq<Member>) {
    forall i | 0 <= i < |members| :: members[i].value.Some?
  }

  /** The fields of an object; of two members with one name the later wins. */
  function MapOf(members: seq<Member>): Record
    requires AllParsed(members)
    decreases |members|
  {
    if members == [] then map[]
    else
      var last := members[|members| - 1];
      MapOf(members[..|members| - 1])[last.name := last.value.value]
  }

  /** The front is the whole payload and every value in it can be parsed. */
  predicate Whole(f: Front) {
    Blank(f.rest) && AllParsed(f.members)
  }

  /**
    Parsing into a map succeeds exactly on objects, with the same fields; a payload is an object
    exactly if an object is in front, all its values parse, and only white space follows it.
   */
  ghost predicate Lawful(lib: Lib) {
    && (forall p: Payload, m: Record :: lib.parseMap(p) == Some(m) <==> lib.parse(p) == Some(Object(m)))
    && (forall p: Payload :: lib.front(p).Some? ==>
          var f := lib.front(p).value;
          lib.parse(p) == if Whole(f) then Some(Object(MapOf(f.members))) else None)
    && (forall p: Payload, m: Record :: lib.parse(p) == Some(Object(m)) ==> lib.front(p).Some?)
  }

  // ----- Decoding one payload (mqtt.rs:695-798) -----

  predicate AllObjects(items: seq<Json>) {
    forall i | 0 <= i < |items| :: items[i].Object?
  }

  function Fields(items: seq<Json>): (rows: seq<Record>)
    requires AllObjects(items)
    ensures |rows| == |items| && forall i | 0 <= i < |rows| :: rows[i] == items[i].fields
  {
    seq(|items|, i requires 0 <= i < |items| => items[i].fields)
  }

  /** An object is a row, an array of objects is a row each, anything else an error. */
  function RowsOfJson(v: Option<Json>): Option<seq<Record>> {
    match v
    case Some(Object(m)) => Some([m])
    case Some(Array(items)) => if AllObjects(items) then Some(Fields(items)) else None
    case _ => None
  }

  /** Names the mask lets through. */
  predicate Keeps(mask: set<string>, name: string) {
    name in mask || name == "error" || name == "__error"
  }

  /** The members a masked reading keeps, as it meets them; it fails on a kept value that does not parse. */
  function Picked(members: seq<Member>, mask: set<string>): Option<Record>
    decreases |members|
  {
    if members == [] then Some(map[])
    else
      var last := members[|members| - 1];
      var done := Picked(members[..|members| - 1], mask);
      if done.None? || !Keeps(mask, last.name) then done
      else if last.value.None? then None
      else Some(done.value[last.name := last.value.value])
  }

  /** The fast path of the format, masked or not. A masked one does not look past the object. */
  function Fast(lib: Lib, p: Payload): Option<Record> {
    if lib.mask.None? then lib.parseMap(p)
    else
      var f := lib.front(p);
      if f.None? then None else Picked(f.value.members, lib.mask.value)
  }

  /** An event's metadata with the incoming one merged over it. */
  function Merged(own: Record, meta: Option<Json>): Json {
    if meta.Some? && meta.value.Object? then Object(own + meta.value.fields) else Object(own)
  }

  /** An event without readings gives no row. */
  function EdgeXRows(e: Option<EdgeXEvent>, meta: Option<Json>): Option<seq<Record>> {
    if e.None? then None
    else if e.value.readings == map[] then Some([])
    else Some([e.value.readings[META_KEY := Merged(e.value.own, meta)]])
  }

  function Rows(lib: Lib, format: Format, p: Payload, meta: Option<Json>): Option<seq<Record>> {
    match format
    case JsonFormat =>
      var fast := Fast(lib, p);
      if fast.Some? then Some([fast.value]) else RowsOfJson(lib.parse(p))
    case Binary => Some([map["self" := lib.text(p)]])
    case Delimited => (var r := lib.line(p); if r.None? then None else Some([r.value]))
    case Protobuf => (var r := lib.message(p); if r.None? then None else Some([r.value]))
    case EdgeX => EdgeXRows(lib.edgex(p), meta)
  }

  const META_KEY: string := "__meta__"

  function Tagged(rows: seq<Record>, meta: Option<Json>): (r: seq<Record>)
    ensures |r| == |rows|
    ensures forall i | 0 <= i < |rows| :: r[i] == if meta.None? then rows[i] else rows[i][META_KEY := meta.value]
  {
    seq(|rows|, i requires 0 <= i < |rows| => if meta.None? then rows[i] else rows[i][META_KEY := meta.value])
  }

  /** The rows of a payload, or `None` if it is refused. */
  function Decode(lib: Lib, format: Format, p: Payload, meta: Option<Json>): Option<seq<Record>> {
    var rows := Rows(lib, format, p, meta);
    if rows.None? then None else Some(Tagged(rows.value, meta))
  }

  function Project(row: Record, mask: set<string>): Record {
    map k | k in row && Keeps(mask, k) :: row[k]
  }

  function ProjectAll(rows: seq<Record>, mask: set<string>): (r: seq<Record>)
    ensures |r| == |rows| && forall i | 0 <= i < |r| :: r[i] == Project(rows[i], mask)
  {
    seq(|rows|, i requires 0 <= i < |rows| => Project(rows[i], mask))
  }

  predicate KeptParsed(members: seq<Member>, mask: set<string>) {
    forall i | 0 <= i < |members| && Keeps(mask, members[i].name) :: members[i].value.Some?
  }

  /** Picking succeeds exactly if the kept values parse. */
  lemma {:induction false} PickedIff(members: seq<Member>, mask: set<string>)
    ensures Picked(members, mask).Some? <==> KeptParsed(members, mask)
    decreases |members|
  {
    if members != [] {
      var n := |members| - 1;
      PickedIff(members[..n], mask);
      if KeptParsed(members[..n], mask) && (Keeps(mask, members[n].name) ==> members[n].value.Some?) {
        forall i | 0 <= i < |members| && Keeps(mask, members[i].name)
          ensures members[i].value.Some?
        {
          assert i < n ==> members[i] == members[..n][i];
        }
      }
    }
  }

  /** Picking members one by one gives the projection of the whole object, repeated names included. */
  lemma {:induction false} PickedIsProjected(members: seq<Member>, mask: set<string>)
    requires AllParsed(members)
    ensures Picked(members, mask) == Some(Project(MapOf(members), mask))
    decreases |members|
  {
    if members != [] {
      var last, before := members[|members| - 1], members[..|members| - 1];
      PickedIsProjected(before, mask);
      var row := MapOf(before);
      if Keeps(mask, last.name) {
        assert Project(row[last.name := last.value.value], mask) == Project(row, mask)[last.name := last.value.value];
      } else {
        assert Project(row[last.name := last.value.value], mask) == Project(row, mask);
      }
    } else {
      assert Project(map[], mask) == map[];
    }
  }

  /** What the rows should be: those of the general parser, projected if there is a mask and an object in front. */
  function Intended(lib: Lib, p: Payload): Option<seq<Record>> {
    var plain := RowsOfJson(lib.parse(p));
    if lib.mask.None? || lib.front(p).None? || plain.None? then plain else Some(ProjectAll(plain.value, lib.mask.value))
  }

  /**
    The fast paths give the rows of the general parser, projected by the mask, if and only if
    there is no mask, no object in front, a kept value that does not parse, or a front that is
    whole. Otherwise a payload is accepted that is refused without a mask, because of bytes
    after the object or a value that was skipped. Rows of arrays are not projected.
   */
  lemma {:induction false} JsonRowsIff(lib: Lib, p: Payload, meta: Option<Json>)
    requires Lawful(lib)
    ensures var rows, f := Rows(lib, JsonFormat, p, meta), lib.front(p);
            && (rows == Intended(lib, p) <==>
                  lib.mask.Some? && f.Some? && KeptParsed(f.value.members, lib.mask.value) ==> Whole(f.value))
            && (rows != Intended(lib, p) ==> rows.Some? && Intended(lib, p).None?)
  {
    if lib.mask.Some? && lib.front(p).Some? {
      var f, mask := lib.front(p).value, lib.mask.value;
      PickedIff(f.members, mask);
      assert AllParsed(f.members) ==> KeptParsed(f.members, mask);
      if Whole(f) {
        PickedIsProjected(f.members, mask);
        assert ProjectAll([MapOf(f.members)], mask) == [Project(MapOf(f.members), mask)];
      }
    } else if lib.mask.None? && lib.parseMap(p).Some? {
      assert lib.parse(p) == Some(Object(lib.parseMap(p).value));
    }
  }

  /** With the mask `a`, the payload `{"a": x, "b": 1e999}` gives a row, though it is no JSON value. */
  lemma {:induction false} SkippedValueIsNotChecked(lib: Lib, p: Payload, meta: Option<Json>, x: Json)
    requires Lawful(lib) && lib.mask == Some({"a"})
    requires lib.front(p) == Some(Front([Member("a", Some(x)), Member("b", None)], []))
    ensures lib.parse(p) == None && Rows(lib, JsonFormat, p, meta) == Some([map["a" := x]])
  {
    var ms := [Member("a", Some(x)), Member("b", None)];
    assert ms[..1] == [ms[0]] && ms[..1][..0] == [];
    assert ms[1].value.None?;
    assert Picked(ms[..1], {"a"}) == Some(map["a" := x]);
  }

  /** With the mask `a`, bytes after the object are accepted. */
  lemma {:induction false} TrailingBytesAreAccepted(lib: Lib, p: Payload, meta: Option<Json>, x: Json)
    requires Lawful(lib) && lib.mask == Some({"a"})
    requires lib.front(p) == Some(Front([Member("a", Some(x))], [0x7D]))
    ensures lib.parse(p) == None && Rows(lib, JsonFormat, p, meta) == Some([map["a" := x]])
  {
    var ms := [Member("a", Some(x))];
    assert ms[..0] == [] && ms[|ms| - 1] == ms[0];
    assert Picked(ms, {"a"}) == Some(map["a" := x]);
    assert !Blank([0x7D]) by { assert !JsonSpace([0x7D][0]); }
  }

  // ----- Rows, field by field -----

  /** An object is one row of its fields; an array is a row for each item, or refused if one is no object. */
  lemma {:induction false} GeneralRows(lib: Lib, p: Payload, meta: Option<Json>)
    requires Fast(lib, p).None?
    ensures var rows, v := Rows(lib, JsonFormat, p, meta), lib.parse(p);
            && (v.None? || v.value.Scalar? ==> rows == None)
            && (v.Some? && v.value.Object? ==> rows == Some([v.value.fields]))
            && (v.Some? && v.value.Array? ==>
                  var items := v.value.items;
                  && (rows.None? <==> exists i :: 0 <= i < |items| && !items[i].Object?)
                  && (rows.Some? ==>
                        |rows.value| == |items| && forall i | 0 <= i < |items| :: items[i] == Object(rows.value[i])))
  {
  }

  /** The names a mask lets through: its own, and two that are always kept. */
  predicate LetThrough(mask: set<string>, name: string) {
    name in mask + {"error", "__error"}
  }

  /** A masked row has exactly the members that are let through, each with its last value. */
  lemma {:induction false} PickedFields(members: seq<Member>, mask: set<string>)
    requires Picked(members, mask).Some?
    ensures var row := Picked(members, mask).value;
            && (forall k :: k in row <==> LetThrough(mask, k) && exists i :: 0 <= i < |members| && members[i].name == k)
            && (forall i | 0 <= i < |members| && LetThrough(mask, members[i].name)
                           && (forall j | i < j < |members| :: members[j].name != members[i].name) ::
                  members[i].value == Some(row[members[i].name]))
    decreases |members|
  {
    if members != [] {
      var n := |members| - 1;
      var before, last := members[..n], members[n];
      PickedFields(before, mask);
      var row, done := Picked(members, mask).value, Picked(before, mask).value;
      forall k
        ensures k in row <==> LetThrough(mask, k) && exists i :: 0 <= i < |members| && members[i].name == k
      {
        if k in done {
          var i :| 0 <= i < n && before[i].name == k;
          assert members[i].name == k;
        }
        if LetThrough(mask, k) && k != last.name && exists i :: 0 <= i < |members| && members[i].name == k {
          var i :| 0 <= i < |members| && members[i].name == k;
          assert before[i].name == k;
        }
      }
      forall i | 0 <= i < |members| && LetThrough(mask, members[i].name)
                 && (forall j | i < j < |members| :: members[j].name != members[i].name)
        ensures members[i].value == Some(row[members[i].name])
      {
        if i < n {
          assert before[i] == members[i] && members[n].name != members[i].name;
          assert forall j | i < j < n :: before[j] == members[j];
        }
      }
    }
  }

  /** Attached metadata is the value under "__meta__" in every row; everything else in the row stays. */
  lemma {:induction false} MetaIsAttached(lib: Lib, format: Format, p: Payload, meta: Option<Json>)
    ensures var rows, plain := Decode(lib, format, p, meta), Rows(lib, format, p, meta);
            && (rows.None? <==> plain.None?)
            && (meta.None? ==> rows == plain)
            && (rows.Some? && meta.Some? ==>
                  && |rows.value| == |plain.value|
                  && forall i | 0 <= i < |rows.value| ::
                       && rows.value[i].Keys == plain.value[i].Keys + {"__meta__"}
                       && rows.value[i]["__meta__"] == meta.value
                       && forall k | k in plain.value[i] && k != "__meta__" :: rows.value[i][k] == plain.value[i][k])
  {
    if Rows(lib, format, p, meta).Some? && meta.None? {
      var plain := Rows(lib, format, p, meta).value;
      assert Tagged(plain, meta) == plain;
    }
  }

  /** The other formats: one row from the decoder at hand, or a row with the text under "self". */
  lemma {:induction false} OtherFormats(lib: Lib, p: Payload, meta: Option<Json>)
    ensures Rows(lib, Binary, p, meta) == Some([map["self" := lib.text(p)]])
    ensures Rows(lib, Delimited, p, meta).None? <==> lib.line(p).None?
    ensures lib.line(p).Some? ==> Rows(lib, Delimited, p, meta) == Some([lib.line(p).value])
    ensures Rows(lib, Protobuf, p, meta).None? <==> lib.message(p).None?
    ensures lib.message(p).Some? ==> Rows(lib, Protobuf, p, meta) == Some([lib.message(p).value])
    ensures Rows(lib, EdgeX, p, meta).None? <==> lib.edgex(p).None?
    ensures lib.edgex(p).Some? && lib.edgex(p).value.readings == map[] ==> Rows(lib, EdgeX, p, meta) == Some([])
    ensures lib.edgex(p).Some? && lib.edgex(p).value.readings != map[] ==>
              var rows, e := Rows(lib, EdgeX, p, meta), lib.edgex(p).value;
              && rows.Some? && |rows.value| == 1 && rows.value[0].Keys == e.readings.Keys + {"__meta__"}
              && (forall k | k in e.readings && k != "__meta__" :: rows.value[0][k] == e.readings[k])
              && rows.value[0]["__meta__"].Object?
              && (meta.None? ==> rows.value[0]["__meta__"].fields == e.own)
              && (meta.Some? && !meta.value.Object? ==> rows.value[0]["__meta__"].fields == e.own)
              && (meta.Some? && meta.value.Object? ==>
                    var merged := rows.value[0]["__meta__"].fields;
                    && merged.Keys == e.own.Keys + meta.value.fields.Keys
                    && forall k | k in merged ::
                         merged[k] == if k in meta.value.fields then meta.value.fields[k] else e.own[k])
  {
  }

  /** An event's own metadata names nothing that the incoming one does not replace. */
  predicate Covered(own: Record, meta: Option<Json>) {
    meta.None? || (meta.value.Object? && own.Keys <= meta.value.fields.Keys)
  }

  /**
    The row of an EdgeX event keeps the merged metadata if and only if there is no incoming
    metadata, or it replaces all of the event's own: otherwise the caller overwrites the merge.
   */
  lemma {:induction false} MergedMetaSurvivesIff(lib: Lib, p: Payload, meta: Option<Json>)
    requires lib.edgex(p).Some? && lib.edgex(p).value.readings != map[]
    ensures var rows := Decode(lib, EdgeX, p, meta);
            && rows.Some? && |rows.value| == 1 && META_KEY in rows.value[0]
            && (rows.value[0][META_KEY] == Merged(lib.edgex(p).value.own, meta)
                <==> Covered(lib.edgex(p).value.own, meta))
  {
    var own := lib.edgex(p).value.own;
    if meta.Some? && meta.value.Object? {
      var ext := meta.value.fields;
      assert (own + ext).Keys == own.Keys + ext.Keys;
      assert own.Keys <= ext.Keys ==> own + ext == ext;
      assert own + ext == ext ==> own.Keys <= ext.Keys;
    }
  }

  // ----- Metadata and its cache (mqtt.rs:802-808, 824-866) -----

  /** `attach` is what the configuration and the flag said when the publish was handled. */
  datatype Publish = Publish(topic: string, qos: nat, pkid: nat, payload: Payload, attach: bool)

  function MetaOf(topic: string, qos: nat, pkid: nat): Json {
    Object(map["topic" := Scalar(topic), "qos" := Scalar(Digits(qos)), "messageId" := Scalar(Digits(pkid))])
  }

  function Digits(n: nat): string {
    (if n < 10 then "" else Digits(n / 10)) + ["0123456789"[n % 10]]
  }

  /** The metadata of a publish, computed afresh. */
  function Meta(p: Publish): Option<Json> {
    if p.attach then Some(MetaOf(p.topic, p.qos, p.pkid)) else None
  }

  /** The metadata is three fields: the topic, the quality of service and the packet id. */
  lemma {:induction false} MetaFields(p: Publish)
    ensures Meta(p).Some? <==> p.attach
    ensures p.attach ==>
              && Meta(p).value.Object? && Meta(p).value.fields.Keys == {"topic", "qos", "messageId"}
              && Meta(p).value.fields["topic"] == Scalar(p.topic)
              && (exists s :: Meta(p).value.fields["qos"] == Scalar(s) && Reads(s, p.qos))
              && (exists s :: Meta(p).value.fields["messageId"] == Scalar(s) && Reads(s, p.pkid))
  {
    DigitsRead(p.qos);
    DigitsRead(p.pkid);
    if p.attach {
      var fields := MetaOf(p.topic, p.qos, p.pkid).fields;
      assert fields["qos"] == Scalar(Digits(p.qos)) && fields["messageId"] == Scalar(Digits(p.pkid));
    }
  }

  /** `s` is the decimal spelling of `n`, without leading zeros. */
  predicate Reads(s: string, n: nat) {
    && s != [] && '0' <= s[|s| - 1] <= '9' && s[|s| - 1] as int - '0' as int == n % 10
    && (if n < 10 then |s| == 1 else Reads(s[..|s| - 1], n / 10))
  }

  lemma {:induction false} DigitsRead(n: nat)
    ensures Reads(Digits(n), n)
  {
    var s := Digits(n);
    DigitAt(n % 10);
    if n >= 10 {
      DigitsRead(n / 10);
      assert s[..|s| - 1] == Digits(n / 10);
    }
  }

  lemma {:induction false} DigitAt(d: nat)
    requires d < 10
    ensures var c := "0123456789"[d]; '0' <= c <= '9' && c as int - '0' as int == d
  {
  }

  /** The rows a publish adds; none if it is refused. */
  function RowsFor(lib: Lib, format: Format, p: Publish): seq<Record> {
    var rows := Decode(lib, format, p.payload, Meta(p));
    if rows.None? then [] else rows.value
  }

  /** A device's name is lost when the topic is attached to its event. */
  lemma {:induction false} DeviceNameIsLost(lib: Lib, p: Publish, device: Json, about: Json, reading: Json)
    requires p.attach && lib.edgex(p.payload)
                         == Some(EdgeXEvent(map["deviceName" := device, "temperature" := about],
                                            map["temperature" := reading]))
    ensures var rows := RowsFor(lib, EdgeX, p);
            && |rows| == 1 && META_KEY in rows[0] && rows[0][META_KEY] == MetaOf(p.topic, p.qos, p.pkid)
            && "deviceName" !in rows[0][META_KEY].fields
            && rows[0][META_KEY] != Merged(map["deviceName" := device, "temperature" := about], Meta(p))
  {
    var own: Record := map["deviceName" := device, "temperature" := about];
    var readings: Record := map["temperature" := reading];
    assert "temperature" in readings;
    MergedMetaSurvivesIff(lib, p.payload, Meta(p));
    assert "deviceName" in own.Keys && "deviceName" !in MetaOf(p.topic, p.qos, p.pkid).fields;
  }

  datatype Cached = Cached(topic: string, qos: nat, meta: Json)

  /** A cached value is what would be computed for its topic and quality of service. */
  predicate CacheOk(cache: Option<Cached>) {
    cache.Some? ==> cache.value.meta == MetaOf(cache.value.topic, cache.value.qos, 0)
  }

  // ----- Draining (mqtt.rs:916-939) -----

  datatype Event = Incoming(publish: Publish) | Other

  predicate AllPublishes(events: seq<Event>) {
    forall i | 0 <= i < |events| :: events[i].Incoming?
  }

  /** Repeated single decoding, in arrival order. */
  function AllRows(lib: Lib, format: Format, events: seq<Event>): seq<Record>
    requires AllPublishes(events)
  {
    if events == [] then []
    else RowsFor(lib, format, events[0].publish) + AllRows(lib, format, events[1..])
  }

  function Refused(lib: Lib, format: Format, events: seq<Event>): nat
    requires AllPublishes(events)
  {
    if events == [] then 0
    else
      (if Decode(lib, format, events[0].publish.payload, Meta(events[0].publish)).None? then 1 else 0)
      + Refused(lib, format, events[1..])
  }

  /** Whether the first `n` events were all wanted: publishes taken while the batch was below `max`. */
  ghost predicate Wanted(lib: Lib, format: Format, events: seq<Event>, size: nat, max: nat, n: nat) {
    && n <= |events| && AllPublishes(events[..n])
    && forall m: nat | m < n :: AllPublishes(events[..m]) && size + |AllRows(lib, format, events[..m])| < max
  }

  /** The longest such prefix. */
  ghost predicate Longest(lib: Lib, format: Format, events: seq<Event>, size: nat, max: nat, n: nat) {
    && Wanted(lib, format, events, size, max, n)
    && !Wanted(lib, format, events, size, max, n + 1)
  }

  /** There is only one longest prefix, so it says exactly which events a drain takes. */
  lemma {:induction false} LongestIsUnique(lib: Lib, format: Format, events: seq<Event>, size: nat, max: nat, n: nat,
                                           m: nat)
    requires Longest(lib, format, events, size, max, n) && Longest(lib, format, events, size, max, m)
    ensures n == m
  {
  }

  lemma {:induction false} AllRowsSnoc(lib: Lib, format: Format, events: seq<Event>, p: Publish)
    requires AllPublishes(events)
    ensures AllPublishes(events + [Incoming(p)])
    ensures AllRows(lib, format, events + [Incoming(p)]) == AllRows(lib, format, events) + RowsFor(lib, format, p)
    ensures Refused(lib, format, events + [Incoming(p)])
            == Refused(lib, format, events) + if Decode(lib, format, p.payload, Meta(p)).None? then 1 else 0
    decreases |events|
  {
    var all := events + [Incoming(p)];
    if events == [] {
      assert all[1..] == [];
    } else {
      assert all[1..] == events[1..] + [Incoming(p)];
      AllRowsSnoc(lib, format, events[1..], p);
      ConcatAssociates(RowsFor(lib, format, events[0].publish), AllRows(lib, format, events[1..]),
                       RowsFor(lib, format, p));
    }
  }

  lemma {:induction false} AllRowsConcat(lib: Lib, format: Format, a: seq<Event>, b: seq<Event>)
    requires AllPublishes(a) && AllPublishes(b)
    ensures AllPublishes(a + b) && AllRows(lib, format, a + b) == AllRows(lib, format, a) + AllRows(lib, format, b)
    decreases |a|
  {
    if a == [] {
      assert a + b == b;
    } else {
      assert (a + b)[1..] == a[1..] + b;
      AllRowsConcat(lib, format, a[1..], b);
      ConcatAssociates(RowsFor(lib, format, a[0].publish), AllRows(lib, format, a[1..]), AllRows(lib, format, b));
    }
  }

  /** One publish more is taken while the batch is below `max`. */
  lemma {:induction false} TakeOne(lib: Lib, format: Format, events: seq<Event>, size: nat, max: nat, n: nat)
    requires Wanted(lib, format, events, size, max, n) && n < |events| && events[n].Incoming?
    requires size + |AllRows(lib, format, events[..n])| < max
    ensures Wanted(lib, format, events, size, max, n + 1)
    ensures var p := events[n].publish;
            && AllRows(lib, format, events[..n + 1]) == AllRows(lib, format, events[..n]) + RowsFor(lib, format, p)
            && Refused(lib, format, events[..n + 1])
               == Refused(lib, format, events[..n]) + if Decode(lib, format, p.payload, Meta(p)).None? then 1 else 0
  {
    assert events[..n + 1] == events[..n] + [Incoming(events[n].publish)];
    AllRowsSnoc(lib, format, events[..n], events[n].publish);
  }

  /** The drain ends at the end of the queue, at another event, or with enough rows. */
  lemma {:induction false} TakeNoMore(lib: Lib, format: Format, events: seq<Event>, size: nat, max: nat, n: nat)
    requires Wanted(lib, format, events, size, max, n)
    requires n == |events| || !events[n].Incoming? || size + |AllRows(lib, format, events[..n])| >= max
    ensures Longest(lib, format, events, size, max, n)
  {
  }

  lemma {:induction false} RefusedConcat(lib: Lib, format: Format, a: seq<Event>, b: seq<Event>)
    requires AllPublishes(a) && AllPublishes(b) && AllPublishes(a + b)
    ensures Refused(lib, format, a + b) == Refused(lib, format, a) + Refused(lib, format, b)
    decreases |a|
  {
    if a == [] {
      assert a + b == b;
    } else {
      assert (a + b)[1..] == a[1..] + b;
      RefusedConcat(lib, format, a[1..], b);
    }
  }

  /** When a drain stops: each event it took found room in the batch, and the next is no publish or finds none. */
  lemma {:induction false} DrainStops(lib: Lib, format: Format, events: seq<Event>, size: nat, max: nat, n: nat)
    requires Longest(lib, format, events, size, max, n)
    ensures n <= |events| && AllPublishes(events[..n])
    ensures forall m: nat | m < n :: AllPublishes(events[..m]) && size + |AllRows(lib, format, events[..m])| < max
    ensures || n == |events| || events[n] == Other
            || size + |AllRows(lib, format, events[..n])| >= max
    ensures size >= max ==> n == 0
  {
    if n > 0 {
      assert AllPublishes(events[..0]) && size + |AllRows(lib, format, events[..0])| < max;
    }
  }

  /**
    Two drains, the batch having been handed on in between: together they give the rows and the
    refusals of the events they took, in order, and the second went on until its batch was full
    or no publish was next.
   */
  lemma {:induction false} DrainsCompose(lib: Lib, format: Format, events: seq<Event>, size: nat, max: nat, n: nat,
                                         m: nat)
    requires Longest(lib, format, events, size, max, n) && Longest(lib, format, events[n..], 0, max, m)
    ensures n + m <= |events| && AllPublishes(events[..n]) && AllPublishes(events[n..][..m])
            && AllPublishes(events[..n + m])
    ensures AllRows(lib, format, events[..n + m])
            == AllRows(lib, format, events[..n]) + AllRows(lib, format, events[n..][..m])
    ensures Refused(lib, format, events[..n + m])
            == Refused(lib, format, events[..n]) + Refused(lib, format, events[n..][..m])
    ensures || n + m == |events| || !events[n + m].Incoming?
            || |AllRows(lib, format, events[n..][..m])| >= max
  {
    assert events[..n + m] == events[..n] + events[n..][..m];
    AllRowsConcat(lib, format, events[..n], events[n..][..m]);
    RefusedConcat(lib, format, events[..n], events[n..][..m]);
    var rest := events[n..];
    if m < |rest| && rest[m].Incoming? && |AllRows(lib, format, rest[..m])| < max {
      TakeOne(lib, format, rest, 0, max, m);
    }
  }

  // ----- The source -----

  class Source {
    const lib: Lib
    const format: Format
    var events: seq<Event>
    var batch: seq<Record>
    var cache: Option<Cached>
    var exceptions: nat

    ghost predicate Valid()
      reads this
    {
      CacheOk(cache)
    }

    constructor (lib: Lib, format: Format, events: seq<Event>)
      ensures Valid() && this.lib == lib && this.format == format && this.events == events
      ensures batch == [] && cache == None && exceptions == 0
    {
      this.lib, this.format, this.events := lib, format, events;
      this.batch, this.cache, this.exceptions := [], None, 0;
    }

    /** The array branch: rows are pushed one by one and taken back when an item is not an object. */
    method PushItems(items: seq<Json>) returns (ok: bool)
      modifies this`batch
      ensures ok == AllObjects(items)
      ensures batch == if ok then old(batch) + Fields(items) else old(batch)
    {
      var first := |batch|;
      ghost var before := batch;
      for i := 0 to |items|
        invariant AllObjects(items[..i]) && batch == before + Fields(items[..i])
      {
        if !items[i].Object? {
          batch := batch[..first];
          assert !AllObjects(items);
          return false;
        }
        assert items[..i + 1] == items[..i] + [items[i]];
        assert Fields(items[..i + 1]) == Fields(items[..i]) + [items[i].fields];
        batch := batch + [items[i].fields];
      }
      assert items[..|items|] == items;
      ok := true;
    }

    /** `decode_object`: the loop over the members of the object in front. */
    method DecodeObject(p: Payload) returns (r: Option<Record>)
      requires lib.mask.Some?
      ensures r == Fast(lib, p)
    {
      var f := lib.front(p);
      if f.None? { return None; }
      var members, row: Record := f.value.members, map[];
      for i := 0 to |members|
        invariant Some(row) == Picked(members[..i], lib.mask.value)
      {
        assert members[..i + 1][..i] == members[..i];
        if Keeps(lib.mask.value, members[i].name) {
          if members[i].value.None? {
            PickedIff(members, lib.mask.value);
            return None;
          }
          row := row[members[i].name := members[i].value.value];
        }
      }
      assert members[..|members|] == members;
      r := Some(row);
    }

    /** The end of the EdgeX decoder: merge the metadata and push the row, if there are readings. */
    method PushEvent(e: Option<EdgeXEvent>, meta: Option<Json>) returns (ok: bool)
      modifies this`batch
      ensures ok == EdgeXRows(e, meta).Some?
      ensures batch == if ok then old(batch) + EdgeXRows(e, meta).value else old(batch)
    {
      if e.None? { return false; }
      var own := e.value.own;
      if meta.Some? && meta.value.Object? {
        own := own + meta.value.fields;
      }
      if e.value.readings != map[] {
        batch := batch + [e.value.readings[META_KEY := Object(own)]];
      }
      ok := true;
    }

    method PushJson(p: Payload) returns (ok: bool)
      modifies this`batch
      ensures ok == Rows(lib, JsonFormat, p, None).Some?
      ensures batch == if ok then old(batch) + Rows(lib, JsonFormat, p, None).value else old(batch)
    {
      var fast := lib.parseMap(p);
      if lib.mask.Some? {
        fast := DecodeObject(p);
      }
      if fast.Some? {
        batch := batch + [fast.value];
        return true;
      }
      var value := lib.parse(p);
      if value.Some? && value.value.Object? {
        batch := batch + [value.value.fields];
        return true;
      }
      if value.None? || !value.value.Array? { return false; }
      ok := PushItems(value.value.items);
    }

    method PushRows(p: Payload, meta: Option<Json>) returns (ok: bool)
      modifies this`batch
      ensures ok == Rows(lib, format, p, meta).Some?
      ensures batch == if ok then old(batch) + Rows(lib, format, p, meta).value else old(batch)
    {
      if format.JsonFormat? {
        ok := PushJson(p);
      } else if format.Binary? {
        batch := batch + [map["self" := lib.text(p)]];
        ok := true;
      } else if format.EdgeX? {
        ok := PushEvent(lib.edgex(p), meta);
      } else {
        var row := if format.Delimited? then lib.line(p) else lib.message(p);
        ok := row.Some?;
        if ok { batch := batch + [row.value]; }
      }
    }

    /** Writes the metadata into the rows from `first` on. */
    method Tag(first: nat, meta: Json)
      requires first <= |batch|
      modifies this`batch
      ensures batch == old(batch)[..first] + Tagged(old(batch)[first..], Some(meta))
    {
      ghost var before := batch;
      for i := first to |batch|
        invariant |batch| == |before|
        invariant forall k | 0 <= k < |batch| ::
                    batch[k] == if first <= k < i then before[k][META_KEY := meta] else before[k]
      {
        batch := batch[i := batch[i][META_KEY := meta]];
      }
    }

    /** `decode_payload_into_with_mask`: a refused payload leaves the batch as it was. */
    method DecodePayloadInto(p: Payload, meta: Option<Json>) returns (ok: bool)
      modifies this`batch
      ensures ok == Decode(lib, format, p, meta).Some?
      ensures batch == if ok then old(batch) + Decode(lib, format, p, meta).value else old(batch)
    {
      var first := |batch|;
      ok := PushRows(p, meta);
      if !ok { return; }
      ConcatSplits(old(batch), Rows(lib, format, p, meta).value);
      if meta.Some? {
        Tag(first, meta.value);
      } else {
        assert Tagged(Rows(lib, format, p, meta).value, meta) == Rows(lib, format, p, meta).value;
      }
    }

    /** The metadata of a publish, by way of the cache. */
    method LookUpMeta(p: Publish) returns (meta: Option<Json>)
      requires Valid()
      modifies this`cache
      ensures Valid() && meta == Meta(p)
    {
      if !p.attach { return None; }
      if p.pkid != 0 { return Some(MetaOf(p.topic, p.qos, p.pkid)); }
      if cache.Some? && cache.value.topic == p.topic && cache.value.qos == p.qos {
        return Some(cache.value.meta);
      }
      var computed := MetaOf(p.topic, p.qos, 0);
      cache := Some(Cached(p.topic, p.qos, computed));
      meta := Some(computed);
    }

    /** `push_decoded_with_cache_and_mask`. */
    method PushDecoded(p: Publish)
      requires Valid()
      modifies this`batch, this`cache, this`exceptions
      ensures Valid()
      ensures batch == old(batch) + RowsFor(lib, format, p)
      ensures exceptions == old(exceptions) + if Decode(lib, format, p.payload, Meta(p)).None? then 1 else 0
    {
      var meta := LookUpMeta(p);
      var ok := DecodePayloadInto(p.payload, meta);
      if !ok {
        exceptions := exceptions + 1;
      }
    }

    /**
      `drain_buffered_publishes_with_cache_and_mask`: takes the longest prefix of publishes met
      while the batch is below `max`, and adds their rows as repeated single decoding would,
      counting each refused payload once.
     */
    method Drain(max: nat) returns (taken: nat)
      requires Valid()
      modifies this
      ensures Valid()
      ensures Longest(lib, format, old(events), |old(batch)|, max, taken)
      ensures events == old(events)[taken..]
      ensures batch == old(batch) + AllRows(lib, format, old(events)[..taken])
      ensures exceptions == old(exceptions) + Refused(lib, format, old(events)[..taken])
    {
      taken := 0;
      ghost var all, start := events, batch;
      while |batch| < max
        invariant Valid() && Wanted(lib, format, all, |start|, max, taken)
        invariant events == all[taken..]
        invariant batch == start + AllRows(lib, format, all[..taken])
        invariant exceptions == old(exceptions) + Refused(lib, format, all[..taken])
        decreases |events|
      {
        if events == [] || !events[0].Incoming? { break; }
        var p := events[0].publish;
        TakeOne(lib, format, all, |start|, max, taken);
        ConcatAssociates(start, AllRows(lib, format, all[..taken]), RowsFor(lib, format, p));
        events := events[1..];
        PushDecoded(p);
        taken := taken + 1;
      }
      TakeNoMore(lib, format, all, |start|, max, taken);
    }
  }
}
