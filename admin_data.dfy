/** The dashboard's data store (admin/admin.js): `saveData` writes a
    document under `admin_<type>` in local storage and `current_<type>` in
    session storage; `loadData` reads session storage first, then local
    storage, then falls back to the built-in default document. Storage
    holds decoded documents: encoding and decoding is taken as lossless. */
module AdminData {
  import opened Js

  function LocalKey(dataType: string): string
  {
    "admin_" + dataType
  }

  function SessionKey(dataType: string): string
  {
    "current_" + dataType
  }

  /** Keys with the same prefix are equal only for the same type. */
  lemma PrefixInjective(p: string, a: string, b: string)
    requires p + a == p + b
    ensures a == b
  {
    assert a == (p + a)[|p|..];
    assert b == (p + b)[|p|..];
  }

  // ---------------------------------------------------------------------
  // getDefaultData

  /** The three types with built-in sample data. */
  const KnownTypes: set<string> := {"courses", "events", "students"}

  function JStrs(items: seq<string>): (r: Json)
    ensures r.JArr? && |r.items| == |items|
  {
    JArr(seq(|items|, i requires 0 <= i < |items| => JStr(items[i])))
  }

  const SampleCourse: Json := JObj(map[
    "id" := JNum(1),
    "name" := JStr("Frontend Development"),
    "category" := JStr("frontend"),
    "duration" := JStr("3 Months"),
    "fee" := JNum(50000),
    "language" := JStr("both"),
    "status" := JStr("active"),
    "description" := JStr("Learn HTML, CSS, JavaScript and React"),
    "learn" := JStrs(["HTML5", "CSS3", "JavaScript", "React", "Responsive Design"]),
    "prerequisites" := JStrs(["Basic computer knowledge"]),
    "image" := JStr("frontend-course.jpg"),
    "outline" := JStr("frontend.pdf"),
    "createdAt" := JStr("2024-01-01"),
    "updatedAt" := JStr("2024-01-01")])

  const SampleEvent: Json := JObj(map[
    "id" := JNum(1),
    "title" := JStr("Free Webinar: Tech Career in 2025"),
    "type" := JStr("webinar"),
    "start" := JStr("2025-01-25T14:00:00"),
    "end" := JStr("2025-01-25T16:00:00"),
    "venue" := JStr("Online (Zoom)"),
    "capacity" := JNum(100),
    "fee" := JNum(0),
    "description" := JStr("Learn how to start your tech career in 2025"),
    "image" := JStr("webinar.jpg"),
    "status" := JStr("upcoming"),
    "createdAt" := JStr("2024-12-20")])

  const SampleStudent: Json := JObj(map[
    "id" := JNum(1),
    "name" := JStr("Ahmed Musa"),
    "email" := JStr("ahmed@email.com"),
    "phone" := JStr("+2348012345678"),
    "course" := JStr("Frontend Development"),
    "enrollmentDate" := JStr("2025-01-15"),
    "progress" := JNum(75),
    "payment" := JStr("paid"),
    "status" := JStr("active")])

  /** `getDefaultData(type)`: one sample record for each known type, an
      empty list under the type's own name for any other. Either way the
      document is an object whose single property, named after the type,
      is a list. */
  function DefaultData(dataType: string): (doc: Json)
    ensures doc.JObj? && doc.fields.Keys == {dataType}
    ensures doc.fields[dataType].JArr?
    ensures dataType in KnownTypes ==> |doc.fields[dataType].items| == 1
    ensures dataType !in KnownTypes ==> doc.fields[dataType].items == []
  {
    if dataType == "courses" then JObj(map["courses" := JArr([SampleCourse])])
    else if dataType == "events" then JObj(map["events" := JArr([SampleEvent])])
    else if dataType == "students" then JObj(map["students" := JArr([SampleStudent])])
    else JObj(map[dataType := JArr([])])
  }

  // ---------------------------------------------------------------------
  // loadData and saveData

  /** What `loadData(type)` resolves with, given the two storages. */
  function Load(local: map<string, Json>, session: map<string, Json>, dataType: string): (r: Json)
    ensures r in session.Values || r in local.Values || r == DefaultData(dataType)
    ensures SessionKey(dataType) !in session && LocalKey(dataType) !in local ==> r == DefaultData(dataType)
  {
    if SessionKey(dataType) in session then session[SessionKey(dataType)]
    else if LocalKey(dataType) in local then local[LocalKey(dataType)]
    else DefaultData(dataType)
  }

  /** What `saveData` resolves with. */
  datatype SaveResult = SaveResult(success: bool, message: string)

  /** The browser's two storages, as far as the dashboard's data goes. */
  class AdminStore {
    var local: map<string, Json>
    var session: map<string, Json>

    constructor (local: map<string, Json>, session: map<string, Json>)
      ensures this.local == local && this.session == session
    {
      this.local := local;
      this.session := session;
    }

    /** `saveData(type, data)`: both tiers get the document, nothing else
        in either storage changes, and loading the type now gives it back. */
    method SaveData(dataType: string, data: Json) returns (r: SaveResult)
      modifies this
      ensures local == old(local)[LocalKey(dataType) := data]
      ensures session == old(session)[SessionKey(dataType) := data]
      ensures r == SaveResult(true, "Data saved successfully")
      ensures Load(local, session, dataType) == data
      ensures forall other | other != dataType :: Load(local, session, other) == Load(old(local), old(session), other)
    {
      local := local[LocalKey(dataType) := data];
      session := session[SessionKey(dataType) := data];
      r := SaveResult(true, "Data saved successfully");
      forall other | other != dataType
        ensures Load(local, session, other) == Load(old(local), old(session), other)
      {
        SaveLeavesOthers(old(local), old(session), dataType, data, other);
      }
    }

    /** `loadData(type)`: the session copy if there is one, else the local
        copy, else the default document. */
    method LoadData(dataType: string) returns (data: Json)
      ensures data == Load(local, session, dataType)
      ensures SessionKey(dataType) !in session && LocalKey(dataType) !in local ==> data == DefaultData(dataType)
    {
      var stored: Option<Json> := None;
      if SessionKey(dataType) in session {
        stored := Some(session[SessionKey(dataType)]);
      }
      if stored.None? && LocalKey(dataType) in local {
        stored := Some(local[LocalKey(dataType)]);
      }
      if stored.Some? {
        data := stored.value;
      } else {
        data := DefaultData(dataType);
      }
    }
  }

  /** Saving a type and loading it gives the saved document back. */
  lemma LoadAfterSave(local: map<string, Json>, session: map<string, Json>, dataType: string, data: Json)
    ensures Load(local[LocalKey(dataType) := data], session[SessionKey(dataType) := data], dataType) == data
  {
  }

  /** Saving one type does not change what loading another gives. */
  lemma SaveLeavesOthers(local: map<string, Json>, session: map<string, Json>, dataType: string, data: Json, other: string)
    requires other != dataType
    ensures Load(local[LocalKey(dataType) := data], session[SessionKey(dataType) := data], other)
      == Load(local, session, other)
  {
    if SessionKey(other) == SessionKey(dataType) {
      PrefixInjective("current_", other, dataType);
    }
    if LocalKey(other) == LocalKey(dataType) {
      PrefixInjective("admin_", other, dataType);
    }
  }

  /** The session copy wins over the local copy. */
  lemma SessionShadowsLocal(local: map<string, Json>, session: map<string, Json>, dataType: string)
    requires SessionKey(dataType) in session
    ensures Load(local, session, dataType) == session[SessionKey(dataType)]
  {
  }

  /** With nothing stored, an unknown type loads as an empty list under its
      own name. */
  lemma FreshUnknownType(dataType: string)
    requires dataType !in KnownTypes
    ensures Load(map[], map[], dataType) == JObj(map[dataType := JArr([])])
  {
  }
}
