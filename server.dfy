/**
 * The route handlers of the students API as methods of one object that owns
 * both stores: the document store (`records`) and the uploads/ directory
 * (`blobs`).  Each handler runs as one sequential operation; a step that
 * throws ends it with InternalError and nothing done before it is undone.
 */
module Server {
  import opened Records

  class StudentStore {
    /** The `Student` collection, keyed by id. */
    var records: map<Id, Student>
    /** The file names present in uploads/. */
    var blobs: set<string>
    /** The id the store hands out next. */
    var nextId: Id

    ghost predicate Valid()
      reads this
    {
      Keyed(records) && Bounded(records, nextId)
    }

    constructor ()
      ensures Valid()
      ensures records == map[] && blobs == {} && nextId == 0
    {
      records, blobs, nextId := map[], {}, 0;
    }

    /** The upload middleware: the file is written under its original name, replacing any namesake. */
    method Receive(upload: Option<FileName>)
      modifies this`blobs
      ensures blobs == Staged(old(blobs), upload)
    {
      if upload.Some? {
        blobs := blobs + {upload.value};
      }
    }

    /** `fs.unlinkSync("uploads/" + name)`; `ok` is false where it would throw. */
    method Unlink(name: string) returns (ok: bool)
      modifies this`blobs
      ensures ok == Unlinkable(old(blobs), name)
      ensures blobs == if ok then old(blobs) - {name} else old(blobs)
    {
      ok := name != "" && name in blobs;
      if ok {
        blobs := blobs - {name};
      }
    }

    /** GET /students: every record, in the store's natural order. */
    method List() returns (r: seq<Student>)
      requires Valid()
      ensures forall i :: 0 <= i < |r| ==> r[i].id in records && records[r[i].id] == r[i]
      ensures forall k :: k in records ==> records[k] in r
      ensures forall i, j :: 0 <= i < j < |r| ==> r[i].id < r[j].id
    {
      r := InOrder(records, nextId);
    }

    /** GET /students/:id. */
    method Get(key: RawId) returns (r: Reply<Student>)
      ensures !ValidId(key) ==> r == InternalError
      ensures ValidId(key) && key.id !in records ==> r == NotFound
      ensures ValidId(key) && key.id in records ==> r == Ok(records[key.id])
    {
      if !ValidId(key) {
        return InternalError;
      }
      if key.id !in records {
        return NotFound;
      }
      r := Ok(records[key.id]);
    }

    /** POST /students, with the upload (if any) already received. */
    method Create(name: FormField, email: FormField, phone: FormField,
                  parent: Option<RawId>, upload: Option<FileName>) returns (r: Reply<Student>)
      requires Valid()
      modifies this
      ensures Valid()
      ensures blobs == Staged(old(blobs), upload)
      // the casts happen when the document is saved: a failure saves nothing
      ensures !AllCastable(name, email, phone) || (parent.Some? && !ValidId(parent.value)) ==>
        r == InternalError && records == old(records) && nextId == old(nextId)
      ensures AllCastable(name, email, phone) && (parent.None? || ValidId(parent.value)) ==>
        && r.Ok?
        && r.value.id !in old(records)
        && r.value.id == old(nextId) && nextId == old(nextId) + 1
        && r.value.name == TextOf(name) && r.value.email == TextOf(email) && r.value.phone == TextOf(phone)
        && r.value.parent == ParentOf(parent)
        && r.value.profile == (if upload.Some? then upload.value else "")
        && records == old(records)[r.value.id := r.value]
    {
      Receive(upload);
      if !AllCastable(name, email, phone) || (parent.Some? && !ValidId(parent.value)) {
        return InternalError;
      }
      var user := Student(nextId, TextOf(name), TextOf(email), TextOf(phone),
                          if upload.Some? then upload.value else "", ParentOf(parent));
      records := records[nextId := user];
      nextId := nextId + 1;
      r := Ok(user);
    }

    /** PUT /students/:id, with the upload (if any) already received. */
    method Update(key: RawId, name: FormField, email: FormField, phone: FormField,
                  upload: Option<FileName>) returns (r: Reply<Student>)
      requires Valid()
      modifies this
      ensures Valid() && nextId == old(nextId)
      // the lookup: a malformed id throws, an unknown one is 404; the upload stays
      ensures !ValidId(key) ==> r == InternalError && records == old(records) && blobs == Staged(old(blobs), upload)
      ensures ValidId(key) && key.id !in old(records) ==>
        r == NotFound && records == old(records) && blobs == Staged(old(blobs), upload)
      // the edit: name, email and phone are replaced, id and parent are kept
      ensures r.Ok? ==>
        && ValidId(key) && key.id in old(records) && AllCastable(name, email, phone)
        && r.value == old(records)[key.id].(name := TextOf(name), email := TextOf(email),
                                            phone := TextOf(phone), profile := r.value.profile)
        && records == old(records)[key.id := r.value]
      // with an upload a non-empty old profile is unlinked (after the new file was
      // written) before the save, whose casts may still fail
      ensures ValidId(key) && key.id in old(records) ==>
        var was := old(records)[key.id].profile;
        var staged := Staged(old(blobs), upload);
        var unlinks := upload.Some? && was != "";
        var after := if unlinks then staged - {was} else staged;
        if unlinks && was !in staged then
          r == InternalError && records == old(records) && blobs == staged
        else if !AllCastable(name, email, phone) then
          r == InternalError && records == old(records) && blobs == after
        else
          r.Ok? && r.value.profile == (if upload.Some? then upload.value else was) && blobs == after
      // a failed save after the unlink leaves the record pointing at the removed blob
      ensures ValidId(key) && key.id in old(records) && upload.Some? && !AllCastable(name, email, phone) ==>
        var was := old(records)[key.id].profile;
        was != "" && was in Staged(old(blobs), upload) ==> records[key.id].profile == was && was !in blobs
      // a new file named like the old profile is the one unlinked: the record points at a missing blob
      ensures r.Ok? && upload.Some? && old(records)[key.id].profile == upload.value ==>
        records[key.id].profile == upload.value && upload.value !in blobs
    {
      Receive(upload);
      if !ValidId(key) {
        return InternalError;
      }
      if key.id !in records {
        return NotFound;
      }
      var user := records[key.id];
      if upload.Some? {
        if user.profile != "" {
          var ok := Unlink(user.profile);
          if !ok {
            return InternalError;
          }
        }
      }
      if !AllCastable(name, email, phone) {
        // the casts recorded on the document make the save reject
        return InternalError;
      }
      user := user.(name := TextOf(name), email := TextOf(email), phone := TextOf(phone));
      if upload.Some? {
        user := user.(profile := upload.value);
      }
      records := records[key.id := user];
      r := Ok(user);
    }

    /** DELETE /students/:id. */
    method Delete(key: RawId) returns (r: Reply<()>)
      requires Valid()
      modifies this
      ensures Valid() && nextId == old(nextId)
      ensures var o := DeleteOutcome(old(records), old(blobs), old(nextId), key);
        records == o.records && blobs == o.blobs && r == o.reply
    {
      if !ValidId(key) {
        // the cast of the id fails in the children query
        return InternalError;
      }
      var id := key.id;
      var profiles := Profiles(records, ChildIds(records, id, nextId));
      ghost var all := UnlinkEach(blobs, profiles);
      var i := 0;
      while i < |profiles|
        invariant 0 <= i <= |profiles|
        invariant records == old(records) && nextId == old(nextId)
        invariant var rest := UnlinkEach(blobs, profiles[i..]);
          all == Unlinked(rest.blobs, i + rest.done, rest.failed)
      {
        assert profiles[i..][1..] == profiles[i + 1..];
        var ok := Unlink(profiles[i]);
        if !ok {
          return InternalError;
        }
        i := i + 1;
      }
      records := WithoutChildren(records, id);
      if id !in records {
        return NotFound;
      }
      var user := records[id];
      records := records - {id};
      if user.profile != "" {
        var ok := Unlink(user.profile);
        if !ok {
          return InternalError;
        }
      }
      r := Ok(());
    }
  }
}
