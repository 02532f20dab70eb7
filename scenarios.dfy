/**
 * Short request sequences against a fresh store, showing what the handler
 * contracts let a client conclude.
 */
module Scenarios {
  import opened Records
  import opened Server

  /** A record read back after it was created is the record created. */
  method CreateThenGet(name: string, email: string, phone: string, upload: Option<FileName>) {
    var store := new StudentStore();
    var created := store.Create(Text(name), Text(email), Text(phone), None, upload);
    var fetched := store.Get(ObjectId(created.value.id));
    assert fetched == created;
  }

  /** Deleting a parent takes its child and the child's picture with it. */
  method DeleteParentWithChild() {
    var store := new StudentStore();
    var a := store.Create(Text("A"), Absent, Absent, None, None);
    var b := store.Create(Text("B"), Absent, Absent, Some(ObjectId(a.value.id)), Some("b.png"));
    assert store.records.Keys == {a.value.id, b.value.id};
    assert store.blobs == {"b.png"};
    assert a.value.id == 0 && b.value.id == 1 && store.nextId == 2;
    assert ChildIds(store.records, 0, 1) == [];
    assert ChildIds(store.records, 0, 2) == [1];
    var r := store.Delete(ObjectId(a.value.id));
    assert r == Ok(());
    var ga := store.Get(ObjectId(a.value.id));
    var gb := store.Get(ObjectId(b.value.id));
    assert ga == NotFound && gb == NotFound;
    assert "b.png" !in store.blobs;
  }

  /** Updating without a file keeps the old picture and replaces the name. */
  method UpdateWithoutFile() {
    var store := new StudentStore();
    var a := store.Create(Text("A"), Absent, Absent, None, Some("a.png"));
    var u := store.Update(ObjectId(a.value.id), Text("X"), Absent, Absent, None);
    assert u.Ok? && u.value.profile == "a.png" && u.value.name == Some("X");
    assert "a.png" in store.blobs;
  }

  /** A child created without a picture makes its parent undeletable. */
  method ChildWithoutPictureBlocksDelete() {
    var store := new StudentStore();
    var a := store.Create(Text("A"), Absent, Absent, None, None);
    var b := store.Create(Text("B"), Absent, Absent, Some(ObjectId(a.value.id)), None);
    assert a.value.id == 0 && b.value.id == 1 && store.nextId == 2;
    assert ChildIds(store.records, 0, 1) == [];
    assert ChildIds(store.records, 0, 2) == [1];
    var r := store.Delete(ObjectId(a.value.id));
    assert r == InternalError;
    assert a.value.id in store.records && b.value.id in store.records;
  }

  /** Re-uploading a picture under the same name unlinks the new file. */
  method ReuploadSameName() {
    var store := new StudentStore();
    var a := store.Create(Text("A"), Absent, Absent, None, Some("a.png"));
    var u := store.Update(ObjectId(a.value.id), Text("A"), Absent, Absent, Some("a.png"));
    assert u.Ok? && u.value.profile == "a.png";
    assert "a.png" !in store.blobs;
  }

  /** A repeated form field fails the save after the old picture was already unlinked. */
  method FailedSaveAfterUnlink() {
    var store := new StudentStore();
    var a := store.Create(Text("A"), Absent, Absent, None, Some("a.png"));
    var u := store.Update(ObjectId(a.value.id), Uncastable, Absent, Absent, Some("b.png"));
    assert u == InternalError;
    assert store.records[a.value.id].profile == "a.png";
    assert "a.png" !in store.blobs && "b.png" in store.blobs;
  }

  /** A malformed id reaches the error reply, not a crash, and changes nothing. */
  method MalformedId() {
    var store := new StudentStore();
    var a := store.Create(Text("A"), Absent, Absent, None, None);
    var g := store.Get(Malformed("xyz"));
    var d := store.Delete(Malformed("xyz"));
    assert g == InternalError && d == InternalError;
    assert a.value.id in store.records;
  }
}
