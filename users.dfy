/**
 * The rules of the Users collection, on values: lookup by Name and by Id,
 * replacement and deletion by Id. MongoDBService (mongo_db_service.dfy)
 * applies them to the collection it holds.
 */
module Users {
  import opened Wrappers

  /** A document of the Users collection; `id` stands for its generated ObjectId. */
  datatype User = User(id: nat, name: string, email: string, phoneNumber: string, password: string)

  ghost predicate UniqueIds(docs: seq<User>) {
    forall i, j :: 0 <= i < j < |docs| ==> docs[i].id != docs[j].id
  }

  /** The invariant Signup tries to keep: no two users share a Name. */
  ghost predicate UniqueNames(docs: seq<User>) {
    forall i, j :: 0 <= i < j < |docs| ==> docs[i].name != docs[j].name
  }

  /** `Find(Name == name).FirstOrDefault()`: the first user with that Name, or null. */
  function FindByName(docs: seq<User>, name: string): (r: Option<User>)
    ensures r.None? <==> forall i :: 0 <= i < |docs| ==> docs[i].name != name
    ensures r.Some? ==> exists i :: 0 <= i < |docs| && docs[i] == r.value && r.value.name == name
                                  && forall j :: 0 <= j < i ==> docs[j].name != name
  {
    if docs == [] then None
    else if docs[0].name == name then Some(docs[0])
    else
      assert forall i :: 1 <= i < |docs| ==> docs[i] == docs[1..][i - 1];
      FindByName(docs[1..], name)
  }

  /** The position of the first user with Id `id`, or `|docs|` when there is none. */
  function IndexOfId(docs: seq<User>, id: nat): (i: nat)
    ensures i <= |docs|
    ensures i < |docs| ==> docs[i].id == id
    ensures forall j :: 0 <= j < i ==> docs[j].id != id
  {
    if docs == [] then 0
    else if docs[0].id == id then 0
    else 1 + IndexOfId(docs[1..], id)
  }

  /** `Find(_id == id).FirstOrDefault()`: the user with that Id, or null. */
  function FindById(docs: seq<User>, id: nat): (r: Option<User>)
    ensures r.None? <==> forall i :: 0 <= i < |docs| ==> docs[i].id != id
    ensures r.Some? ==> r.value in docs && r.value.id == id
  {
    var i := IndexOfId(docs, id);
    if i < |docs| then Some(docs[i]) else None
  }

  /**
   * `ReplaceOneAsync(_id == u.Id, u)`: the user with `u`'s Id becomes `u`;
   * every other document stays where it was.
   */
  function ReplaceById(docs: seq<User>, u: User): (r: seq<User>)
    ensures |r| == |docs|
    ensures UniqueIds(docs) ==> forall i :: 0 <= i < |docs| ==> r[i] == if docs[i].id == u.id then u else docs[i]
  {
    var i := IndexOfId(docs, u.id);
    if i < |docs| then docs[i := u] else docs
  }

  /**
   * `DeleteOneAsync(_id == id)`: the first user with that Id is removed and
   * the others keep their order; nothing changes when there is none.
   */
  function RemoveById(docs: seq<User>, id: nat): (r: seq<User>)
    ensures FindById(docs, id).None? ==> r == docs
    ensures FindById(docs, id).Some? ==> exists i :: 0 <= i < |docs| && docs[i].id == id && r == docs[..i] + docs[i + 1..]
  {
    var i := IndexOfId(docs, id);
    if i < |docs| then docs[..i] + docs[i + 1..] else docs
  }

  /** With unique Ids the deleted user is gone and every other user remains. */
  lemma RemoveByIdRemovesOnlyThatUser(docs: seq<User>, id: nat)
    requires UniqueIds(docs)
    ensures var r := RemoveById(docs, id);
      && FindById(r, id).None?
      && (forall u :: u in docs && u.id != id ==> u in r)
      && (forall u :: u in r ==> u in docs)
      && UniqueIds(r)
  {
    var i := IndexOfId(docs, id);
    if i < |docs| {
      DropAt(docs, i);
      var r := docs[..i] + docs[i + 1..];
      assert RemoveById(docs, id) == r;
      forall k | 0 <= k < |r| ensures r[k].id != id {
        var k' := if k < i then k else k + 1;
        assert r[k] == docs[k'] && k' != i;
      }
      forall u | u in docs && u.id != id ensures u in r {
        var k :| 0 <= k < |docs| && docs[k] == u;
        assert k != i;
        assert r[if k < i then k else k - 1] == u;
      }
      forall a, b | 0 <= a < b < |r| ensures r[a].id != r[b].id {
        assert r[a] == docs[if a < i then a else a + 1];
        assert r[b] == docs[if b < i then b else b + 1];
      }
    }
  }

  /** Dropping index `i` shifts every later element down by one. */
  lemma DropAt(docs: seq<User>, i: nat)
    requires i < |docs|
    ensures var r := docs[..i] + docs[i + 1..];
      && |r| == |docs| - 1
      && (forall k :: 0 <= k < i ==> r[k] == docs[k])
      && (forall k :: i <= k < |r| ==> r[k] == docs[k + 1])
      && (forall u :: u in r ==> u in docs)
  {
  }

  /** ReplaceById keeps Ids unique when it replaces a user by one with the same Id. */
  lemma ReplaceByIdKeepsUniqueIds(docs: seq<User>, u: User)
    requires UniqueIds(docs)
    ensures UniqueIds(ReplaceById(docs, u))
  {
  }

  /** Appending a user whose Name is not taken keeps Names unique. */
  lemma AddingFreeNameKeepsNamesUnique(docs: seq<User>, u: User)
    requires FindByName(docs, u.name).None?
    ensures UniqueNames(docs) ==> UniqueNames(docs + [u])
  {
  }

  /**
   * ReplaceById does not look at Names: a unique-Names collection can lose
   * that property when a user takes another user's Name.
   */
  lemma ReplaceCanBreakUniqueNames()
    ensures exists docs: seq<User>, u: User ::
      && UniqueNames(docs) && UniqueIds(docs) && FindById(docs, u.id).Some?
      && !UniqueNames(ReplaceById(docs, u))
  {
    var a := User(0, "ann", "a@x.io", "0123456789", "secret1");
    var b := User(1, "bob", "b@x.io", "0123456789", "secret2");
    var b' := b.(name := "ann");
    var docs := [a, b];
    assert ReplaceById(docs, b') == [a, b'];
    assert !UniqueNames([a, b']);
  }
}
