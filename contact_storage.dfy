/**
 * The persisted contact list (`contactStorage`). The browser storage entry that holds
 * the JSON blob is modelled by `Blob`: nothing stored, text that fails to parse, or a
 * parsed sequence of contacts. The store does no trimming and no validation.
 */
module ContactStorage {
  import opened Wrappers

  /** A contact record as persisted. */
  datatype Contact = Contact(id: string, name: string, number: string)

  /** The fields of a partial update; `None` is a field the update does not carry. */
  datatype ContactUpdates = ContactUpdates(name: Option<string>, number: Option<string>)

  /** The storage entry under the contacts key. */
  datatype Blob = Absent | Corrupt | Stored(contacts: seq<Contact>)

  /** `findIndex(c => c.id === id)`: the first position holding `id`, or -1. */
  function FindIndex(cs: seq<Contact>, id: string): (r: int)
    ensures -1 <= r < |cs|
    ensures r == -1 <==> forall k :: 0 <= k < |cs| ==> cs[k].id != id
    ensures r >= 0 ==> cs[r].id == id && forall k :: 0 <= k < r ==> cs[k].id != id
  {
    if cs == [] then -1
    else if cs[0].id == id then 0
    else
      var r := FindIndex(cs[1..], id);
      if r == -1 then -1 else r + 1
  }

  /** `{ ...c, ...updates }`: the supplied fields win, all others (the id included) are kept. */
  function Merge(c: Contact, u: ContactUpdates): (r: Contact)
    ensures r.id == c.id
    ensures r.name == (if u.name.Some? then u.name.value else c.name)
    ensures r.number == (if u.number.Some? then u.number.value else c.number)
  {
    Contact(c.id,
            if u.name.Some? then u.name.value else c.name,
            if u.number.Some? then u.number.value else c.number)
  }

  /** `filter(c => c.id !== id)`. */
  function RemoveId(cs: seq<Contact>, id: string): (r: seq<Contact>)
    ensures |r| <= |cs|
    ensures r == cs <==> forall k :: 0 <= k < |cs| ==> cs[k].id != id
    ensures |r| == |cs| <==> r == cs
  {
    if cs == [] then []
    else if cs[0].id == id then RemoveId(cs[1..], id)
    else [cs[0]] + RemoveId(cs[1..], id)
  }

  /** The records kept are exactly those of `cs` with another id. */
  lemma {:induction false} RemoveIdMembers(cs: seq<Contact>, id: string)
    ensures forall c :: c in RemoveId(cs, id) <==> c in cs && c.id != id
  {
    if cs != [] {
      RemoveIdMembers(cs[1..], id);
      assert cs == [cs[0]] + cs[1..];
    }
  }

  /** Filtering distributes over concatenation, so the kept records stay in their order. */
  lemma {:induction false} RemoveIdAppend(a: seq<Contact>, b: seq<Contact>, id: string)
    ensures RemoveId(a + b, id) == RemoveId(a, id) + RemoveId(b, id)
  {
    if a == [] {
      assert a + b == b;
    } else {
      var t := a[1..];
      assert a + b == [a[0]] + (t + b);
      assert (a + b)[1..] == t + b;
      RemoveIdAppend(t, b, id);
      if a[0].id != id {
        assert [a[0]] + (RemoveId(t, id) + RemoveId(b, id)) == ([a[0]] + RemoveId(t, id)) + RemoveId(b, id);
      }
    }
  }

  /** The first match is not disturbed by appending after it; an id that occurs
      nowhere in `a` is found where `b` has it. */
  lemma {:induction false} FindIndexAppend(a: seq<Contact>, b: seq<Contact>, id: string)
    ensures FindIndex(a, id) >= 0 ==> FindIndex(a + b, id) == FindIndex(a, id)
    ensures FindIndex(a, id) == -1 && FindIndex(b, id) >= 0 ==>
              FindIndex(a + b, id) == |a| + FindIndex(b, id)
    ensures FindIndex(a, id) == -1 && FindIndex(b, id) == -1 ==> FindIndex(a + b, id) == -1
  {
    if a != [] {
      assert (a + b)[0] == a[0] && (a + b)[1..] == a[1..] + b;
      FindIndexAppend(a[1..], b, id);
    } else {
      assert a + b == b;
    }
  }

  class ContactStore {
    var blob: Blob

    constructor (initial: Blob)
      ensures blob == initial
    {
      blob := initial;
    }

    /** `getAll()`: the stored list; nothing stored or an unparsable blob reads as empty. */
    function GetAll(): (r: seq<Contact>)
      reads this
      ensures blob.Stored? ==> r == blob.contacts
      ensures !blob.Stored? ==> r == []
    {
      if blob.Stored? then blob.contacts else []
    }

    /** `save(contacts)`: replaces the whole blob. */
    method Save(contacts: seq<Contact>)
      modifies this
      ensures blob == Stored(contacts)
      ensures GetAll() == contacts
    {
      blob := Stored(contacts);
    }

    /** `add`: appends one record carrying the given fields verbatim and the supplied id. */
    method Add(name: string, number: string, id: string) returns (created: Contact)
      modifies this
      ensures created == Contact(id, name, number)
      ensures GetAll() == old(GetAll()) + [created]
      ensures blob.Stored?
    {
      var contacts := GetAll();
      created := Contact(id, name, number);
      contacts := contacts + [created];
      Save(contacts);
    }

    /** `update`: merges over the first record with `id`, in place; `None` and no write
        when no record has that id. */
    method Update(id: string, updates: ContactUpdates) returns (updated: Option<Contact>)
      modifies this
      ensures var cs := old(GetAll()); var i := FindIndex(cs, id);
        if i == -1 then
          updated == None && blob == old(blob)
        else
          && updated == Some(Merge(cs[i], updates))
          && GetAll() == cs[i := updated.value]
          && blob.Stored?
    {
      var contacts := GetAll();
      var index := FindIndex(contacts, id);
      if index == -1 {
        return None;
      }
      contacts := contacts[index := Merge(contacts[index], updates)];
      Save(contacts);
      updated := Some(contacts[index]);
    }

    /** `delete`: drops every record with `id`; writes and answers true only when
        something was dropped. */
    method Delete(id: string) returns (removed: bool)
      modifies this
      ensures var cs := old(GetAll());
        && removed == (|RemoveId(cs, id)| < |cs|)
        && removed == (FindIndex(cs, id) >= 0)
        && (removed ==> blob == Stored(RemoveId(cs, id)))
        && (!removed ==> blob == old(blob))
    {
      var contacts := GetAll();
      var filtered := RemoveId(contacts, id);
      if |filtered| == |contacts| {
        return false;
      }
      Save(filtered);
      removed := true;
    }

    /** `clear`: removes the storage entry. */
    method Clear()
      modifies this
      ensures blob == Absent
      ensures GetAll() == []
    {
      blob := Absent;
    }
  }

  /** Updating keeps the length, the position and id of the updated record, and every
      other record. */
  lemma UpdateKeepsOthers(cs: seq<Contact>, id: string, u: ContactUpdates)
    requires FindIndex(cs, id) >= 0
    ensures var i := FindIndex(cs, id); var after := cs[i := Merge(cs[i], u)];
      && |after| == |cs|
      && after[i].id == id
      && forall k :: 0 <= k < |cs| && k != i ==> after[k] == cs[k]
  {
  }

  /** Adding a record with a fresh id and then renaming it leaves it last, with the new
      name and the number it was created with. */
  lemma AddThenRename(cs: seq<Contact>, id: string, name: string, number: string, newName: string)
    requires forall k :: 0 <= k < |cs| ==> cs[k].id != id
    ensures var added := cs + [Contact(id, name, number)];
      && FindIndex(added, id) == |cs|
      && added[|cs| := Merge(added[|cs|], ContactUpdates(Some(newName), None))]
         == cs + [Contact(id, newName, number)]
  {
    FindIndexAppend(cs, [Contact(id, name, number)], id);
  }

  /** Deleting a record that was just added with a fresh id gives the original list back. */
  lemma AddThenDelete(cs: seq<Contact>, c: Contact)
    requires forall k :: 0 <= k < |cs| ==> cs[k].id != c.id
    ensures RemoveId(cs + [c], c.id) == cs
  {
    RemoveIdAppend(cs, [c], c.id);
  }

  /** A second delete of the same id finds nothing and changes nothing. */
  lemma DeleteIdempotent(cs: seq<Contact>, id: string)
    ensures FindIndex(RemoveId(cs, id), id) == -1
    ensures RemoveId(RemoveId(cs, id), id) == RemoveId(cs, id)
  {
    var r := RemoveId(cs, id);
    RemoveIdMembers(cs, id);
    forall k | 0 <= k < |r| ensures r[k].id != id {
      assert r[k] in r;
    }
  }
}
