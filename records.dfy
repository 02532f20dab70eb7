/**
 * The student records of the backend and the pure pieces of its handlers:
 * the document store is a map from identifiers to records, the uploads/
 * directory is a set of file names.  The handlers themselves, which change
 * both stores step by step, are methods of the class in server.dfy; this
 * module holds what they are specified against.
 */
module Records {

  datatype Option<T> = None | Some(value: T)

  /** An identifier handed out by the document store, ordered by creation. */
  type Id = nat

  /** An identifier as it arrives in a request path or a form field. */
  datatype RawId = ObjectId(id: Id) | Malformed(text: string)

  /** Whether the store can cast the text to an identifier at all. */
  predicate ValidId(key: RawId) {
    key.ObjectId?
  }

  /** The original name of an uploaded file; an upload always has one. */
  type FileName = s: string | s != "" witness "profile.png"

  /**
   * A student document.  The text fields are absent when the form left them
   * out; `profile` is "" when no picture was uploaded; `parent` is null for a
   * root-level record.
   */
  datatype Student = Student(
    id: Id,
    name: Option<string>,
    email: Option<string>,
    phone: Option<string>,
    profile: string,
    parent: Option<Id>)

  /**
   * A text field of the request body: left out, a string, or a value the
   * store's String cast rejects (a repeated multipart field arrives as an
   * array, a JSON body may carry an object).
   */
  datatype FormField = Absent | Text(text: string) | Uncastable

  /** Whether the store can cast the value to a String. */
  predicate Castable(f: FormField) {
    !f.Uncastable?
  }

  /** The value stored for a castable field. */
  function TextOf(f: FormField): Option<string>
    requires Castable(f)
  {
    match f
    case Absent => None
    case Text(t) => Some(t)
  }

  /** Whether saving a document with these three text fields passes the cast. */
  predicate AllCastable(name: FormField, email: FormField, phone: FormField) {
    Castable(name) && Castable(email) && Castable(phone)
  }

  /** What a handler answers: the record, 404, or 500. */
  datatype Reply<T> = Ok(value: T) | NotFound | InternalError

  function Elems<T>(s: seq<T>): set<T> {
    set x | x in s
  }

  /** Every record is stored under its own id. */
  ghost predicate Keyed(records: map<Id, Student>) {
    forall k :: k in records ==> records[k].id == k
  }

  /** Every id in use is below `n`. */
  ghost predicate Bounded(records: map<Id, Student>, n: nat) {
    forall k :: k in records ==> k < n
  }

  /** The blob set once the upload middleware has written the request's file. */
  function Staged(blobs: set<string>, upload: Option<FileName>): set<string> {
    match upload
    case None => blobs
    case Some(f) => blobs + {f}
  }

  /**
   * Whether unlinking uploads/<name> succeeds: the file must exist, and the
   * empty name denotes the uploads/ directory itself, which unlink refuses.
   */
  predicate Unlinkable(blobs: set<string>, name: string) {
    name != "" && name in blobs
  }

  /** The parent a new record gets from the form field `parent`. */
  function ParentOf(parent: Option<RawId>): Option<Id>
    requires parent.Some? ==> ValidId(parent.value)
  {
    match parent
    case None => None
    case Some(key) => Some(key.id)
  }

  // ---------------------------------------------------------------------
  // Queries in the store's natural order (ascending id, i.e. creation order)
  // ---------------------------------------------------------------------

  /** The query `find()`: all records with an id below `n`, oldest first. */
  function InOrder(records: map<Id, Student>, n: nat): (r: seq<Student>)
    requires Keyed(records)
    ensures forall i :: 0 <= i < |r| ==> r[i].id < n && r[i].id in records && records[r[i].id] == r[i]
    ensures forall k :: k in records && k < n ==> records[k] in r
    ensures forall i, j :: 0 <= i < j < |r| ==> r[i].id < r[j].id
  {
    if n == 0 then []
    else
      var below := InOrder(records, n - 1);
      if n - 1 in records then below + [records[n - 1]] else below
  }

  /** The query `find({parent: p})`: the ids of the children of `p`, oldest first. */
  function ChildIds(records: map<Id, Student>, p: Id, n: nat): (r: seq<Id>)
    ensures forall k :: k in r <==> k < n && k in records && records[k].parent == Some(p)
    ensures forall i, j :: 0 <= i < j < |r| ==> r[i] < r[j]
  {
    if n == 0 then []
    else
      var below := ChildIds(records, p, n - 1);
      assert forall i :: 0 <= i < |below| ==> below[i] in below;
      if n - 1 in records && records[n - 1].parent == Some(p) then below + [n - 1] else below
  }

  /** `children.map(el => el.profile)`. */
  function Profiles(records: map<Id, Student>, ids: seq<Id>): (r: seq<string>)
    requires forall i :: 0 <= i < |ids| ==> ids[i] in records
    ensures |r| == |ids|
    ensures forall i :: 0 <= i < |ids| ==> r[i] == records[ids[i]].profile
  {
    seq(|ids|, i requires 0 <= i < |ids| => records[ids[i]].profile)
  }

  /** The profiles of the children of `p`, in the order the delete handler unlinks them. */
  function ChildProfiles(records: map<Id, Student>, p: Id, n: nat): seq<string> {
    Profiles(records, ChildIds(records, p, n))
  }

  /** `deleteMany({parent: p})`: the records left once every child of `p` is gone. */
  function WithoutChildren(records: map<Id, Student>, p: Id): (r: map<Id, Student>)
    ensures forall k :: k in r <==> k in records && records[k].parent != Some(p)
    ensures forall k :: k in r ==> r[k] == records[k]
  {
    map k | k in records && records[k].parent != Some(p) :: records[k]
  }

  // ---------------------------------------------------------------------
  // The forEach(unlinkSync) loop of the delete handler
  // ---------------------------------------------------------------------

  /**
   * What a run of unlinks leaves: the blob set, how many unlinks succeeded,
   * and whether one of them threw (which stops the run).
   */
  datatype Unlinked = Unlinked(blobs: set<string>, done: nat, failed: bool)

  /**
   * Unlinking `names` one after the other, stopping at the first that throws.
   * The names unlinked before the failure stay unlinked.
   */
  function UnlinkEach(blobs: set<string>, names: seq<string>): (r: Unlinked)
    ensures r.done <= |names|
    ensures r.failed <==> r.done < |names|
    ensures r.blobs == blobs - Elems(names[..r.done])
    ensures forall i :: 0 <= i < r.done ==> Unlinkable(blobs, names[i])
    ensures forall i, j :: 0 <= i < j < r.done ==> names[i] != names[j]
    ensures r.failed ==> !Unlinkable(r.blobs, names[r.done])
  {
    if names == [] then Unlinked(blobs, 0, false)
    else if !Unlinkable(blobs, names[0]) then Unlinked(blobs, 0, true)
    else
      var rest := UnlinkEach(blobs - {names[0]}, names[1..]);
      assert names[..rest.done + 1] == [names[0]] + names[1..][..rest.done];
      Unlinked(rest.blobs, rest.done + 1, rest.failed)
  }

  // ---------------------------------------------------------------------
  // The delete handler as a whole
  // ---------------------------------------------------------------------

  /** The two stores and the reply after a handler has run. */
  datatype Outcome<T> = Outcome(records: map<Id, Student>, blobs: set<string>, reply: Reply<T>)

  /**
   * DELETE /students/:id as the handler is written: unlink every child's
   * profile (empty or not), delete the children, then delete the record
   * itself, answering 404 if it is gone, and finally unlink its own profile
   * if it has one.  Any throw answers 500 and leaves earlier steps done.
   */
  function DeleteOutcome(records: map<Id, Student>, blobs: set<string>, n: nat, key: RawId): (o: Outcome<()>)
    ensures o.blobs <= blobs
    ensures forall k :: k in o.records ==> k in records && o.records[k] == records[k]
  {
    if !ValidId(key) then Outcome(records, blobs, InternalError)
    else
      var id := key.id;
      var u := UnlinkEach(blobs, ChildProfiles(records, id, n));
      if u.failed then Outcome(records, u.blobs, InternalError)
      else
        var rest := WithoutChildren(records, id);
        if id !in rest then Outcome(rest, u.blobs, NotFound)
        else
          var user := rest[id];
          var left := rest - {id};
          if user.profile == "" then Outcome(left, u.blobs, Ok(()))
          else if Unlinkable(u.blobs, user.profile) then Outcome(left, u.blobs - {user.profile}, Ok(()))
          else Outcome(left, u.blobs, InternalError)
  }

  // ---------------------------------------------------------------------
  // Properties of the unlink loop
  // ---------------------------------------------------------------------

  /** A sequence without repetitions has as many elements as its set. */
  lemma {:induction false} DistinctElems<T>(s: seq<T>)
    requires forall i, j :: 0 <= i < j < |s| ==> s[i] != s[j]
    ensures |Elems(s)| == |s|
  {
    if s != [] {
      DistinctElems(s[1..]);
      assert Elems(s) == {s[0]} + Elems(s[1..]);
      assert s[0] !in Elems(s[1..]);
    }
  }

  /** The loop runs to the end exactly when every name is a distinct file that exists beforehand. */
  lemma UnlinkEachCompletes(blobs: set<string>, names: seq<string>)
    ensures !UnlinkEach(blobs, names).failed <==>
      && (forall i :: 0 <= i < |names| ==> Unlinkable(blobs, names[i]))
      && (forall i, j :: 0 <= i < j < |names| ==> names[i] != names[j])
  {
  }

  /** An empty name (a record without a picture) always stops the loop. */
  lemma UnlinkEachStopsAtEmptyName(blobs: set<string>, names: seq<string>, k: nat)
    requires k < |names| && names[k] == ""
    ensures UnlinkEach(blobs, names).failed
    ensures UnlinkEach(blobs, names).done <= k
  {
  }

  // ---------------------------------------------------------------------
  // Properties of the delete handler
  // ---------------------------------------------------------------------

  /**
   * If a child's profile cannot be unlinked the handler stops before any
   * record is deleted; the profiles unlinked before it stay unlinked.
   */
  lemma DeleteAbortsInLoop(records: map<Id, Student>, blobs: set<string>, n: nat, key: RawId)
    requires ValidId(key)
    requires UnlinkEach(blobs, ChildProfiles(records, key.id, n)).failed
    ensures var o := DeleteOutcome(records, blobs, n, key);
      var ps := ChildProfiles(records, key.id, n);
      var u := UnlinkEach(blobs, ps);
      && o.reply == InternalError
      && o.records == records
      && o.blobs == blobs - Elems(ps[..u.done])
      && !Unlinkable(o.blobs, ps[u.done])
  {
  }

  /** One child without a picture makes the whole delete fail before any record is deleted. */
  lemma DeleteBlockedByChildWithoutProfile(records: map<Id, Student>, blobs: set<string>, n: nat, key: RawId, c: Id)
    requires Bounded(records, n) && ValidId(key)
    requires c in records && records[c].parent == Some(key.id) && records[c].profile == ""
    ensures DeleteOutcome(records, blobs, n, key).reply == InternalError
    ensures DeleteOutcome(records, blobs, n, key).records == records
  {
  }

  /**
   * Once the loop is through, exactly the record and its direct children are
   * gone; every other record, grandchildren included, is kept as it was.
   */
  lemma DeleteRemovesOneLevel(records: map<Id, Student>, blobs: set<string>, n: nat, key: RawId)
    requires Bounded(records, n) && ValidId(key)
    requires !UnlinkEach(blobs, ChildProfiles(records, key.id, n)).failed
    ensures var o := DeleteOutcome(records, blobs, n, key);
      && (forall k :: k in o.records <==> k in records && k != key.id && records[k].parent != Some(key.id))
      && (forall k :: k in o.records ==> o.records[k] == records[k])
  {
    var rest := WithoutChildren(records, key.id);
    var o := DeleteOutcome(records, blobs, n, key);
    assert o.records == if key.id in rest then rest - {key.id} else rest;
  }

  /** A grandchild survives the deletion of its grandparent. */
  lemma DeleteKeepsGrandchildren(records: map<Id, Student>, blobs: set<string>, n: nat, key: RawId, c: Id, g: Id)
    requires Bounded(records, n) && ValidId(key)
    requires !UnlinkEach(blobs, ChildProfiles(records, key.id, n)).failed
    requires c in records && records[c].parent == Some(key.id) && c != key.id
    requires g in records && records[g].parent == Some(c) && g != key.id
    ensures var o := DeleteOutcome(records, blobs, n, key);
      g in o.records && o.records[g] == records[g]
  {
  }

  /**
   * An id with no record, or a record that is its own parent (and so went
   * with the children), answers 404 after the children and their blobs are gone.
   */
  lemma DeleteAbsentAfterChildren(records: map<Id, Student>, blobs: set<string>, n: nat, key: RawId)
    requires ValidId(key)
    requires key.id !in records || records[key.id].parent == Some(key.id)
    requires !UnlinkEach(blobs, ChildProfiles(records, key.id, n)).failed
    ensures var o := DeleteOutcome(records, blobs, n, key);
      var ps := ChildProfiles(records, key.id, n);
      && o.reply == NotFound
      && o.records == WithoutChildren(records, key.id)
      && o.blobs == blobs - Elems(ps)
  {
  }

  /**
   * When the record is there, its own blob is unlinked if and only if its
   * profile is non-empty; a missing blob answers 500 with the records already gone.
   */
  lemma DeleteOwnProfile(records: map<Id, Student>, blobs: set<string>, n: nat, key: RawId)
    requires ValidId(key)
    requires key.id in records && records[key.id].parent != Some(key.id)
    requires !UnlinkEach(blobs, ChildProfiles(records, key.id, n)).failed
    ensures var o := DeleteOutcome(records, blobs, n, key);
      var ps := ChildProfiles(records, key.id, n);
      var own := records[key.id].profile;
      var after := blobs - Elems(ps);
      && o.records == WithoutChildren(records, key.id) - {key.id}
      && (o.reply == Ok(()) <==> own == "" || own in after)
      && (o.reply != Ok(()) ==> o.reply == InternalError && o.blobs == after)
      && (o.reply == Ok(()) ==> o.blobs == if own == "" then after else after - {own})
  {
  }

  /**
   * The delete succeeds exactly when the id is well formed, every child's
   * profile is a distinct existing file, the record exists and is not its own
   * parent, and its own profile is empty or still present after the children's.
   */
  lemma DeleteSucceedsIff(records: map<Id, Student>, blobs: set<string>, n: nat, key: RawId)
    ensures DeleteOutcome(records, blobs, n, key).reply == Ok(()) <==>
      && ValidId(key)
      && var ps := ChildProfiles(records, key.id, n);
      && (forall i :: 0 <= i < |ps| ==> Unlinkable(blobs, ps[i]))
      && (forall i, j :: 0 <= i < j < |ps| ==> ps[i] != ps[j])
      && key.id in records && records[key.id].parent != Some(key.id)
      && (records[key.id].profile == "" || records[key.id].profile in blobs - Elems(ps))
  {
  }

  /** Removing a record that is not its own parent, with its N children, leaves N + 1 fewer records. */
  lemma RemovedCount(records: map<Id, Student>, id: Id, n: nat)
    requires Bounded(records, n)
    requires id in records && records[id].parent != Some(id)
    ensures |WithoutChildren(records, id) - {id}| == |records| - |ChildIds(records, id, n)| - 1
  {
    var kids := ChildIds(records, id, n);
    DistinctElems(kids);
    var gone := Elems(kids) + {id};
    var left := WithoutChildren(records, id) - {id};
    assert left.Keys == records.Keys - gone;
    assert |records.Keys - gone| == |records.Keys| - |gone| by {
      assert records.Keys == (records.Keys - gone) + gone;
    }
  }

  /** A successful delete of a record with N children removes exactly N + 1 records. */
  lemma DeleteCount(records: map<Id, Student>, blobs: set<string>, n: nat, key: RawId)
    requires Bounded(records, n)
    requires DeleteOutcome(records, blobs, n, key).reply == Ok(())
    ensures |DeleteOutcome(records, blobs, n, key).records| == |records| - |ChildIds(records, key.id, n)| - 1
  {
    assert ValidId(key);
    var rest := WithoutChildren(records, key.id);
    assert key.id in rest && DeleteOutcome(records, blobs, n, key).records == rest - {key.id};
    RemovedCount(records, key.id, n);
  }
}
