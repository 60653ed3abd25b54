/**
 * The contacts hook (`useContacts`): a module-wide registry of change listeners and
 * the three mutating wrappers that call the store and then notify. Listeners are
 * identified by ids; invoking one is recorded in `calls`.
 */
module UseContacts {
  import opened Wrappers
  import opened ContactStorage

  type ListenerId = nat

  predicate NoDuplicates(s: seq<ListenerId>)
  {
    forall i, j :: 0 <= i < j < |s| ==> s[i] != s[j]
  }

  /** How often `x` occurs in `s`. */
  function Occurrences(s: seq<ListenerId>, x: ListenerId): nat
  {
    if s == [] then 0 else (if s[0] == x then 1 else 0) + Occurrences(s[1..], x)
  }

  /** In a sequence without duplicates every member occurs once and nothing else occurs;
      since `Notify` appends the registered listeners to `calls`, one notification
      reaches each registered listener exactly once and no other. */
  lemma {:induction false} NotifyReachesEachOnce(s: seq<ListenerId>, x: ListenerId)
    requires NoDuplicates(s)
    ensures Occurrences(s, x) == if x in s then 1 else 0
  {
    if s != [] {
      NotifyReachesEachOnce(s[1..], x);
      if s[0] == x {
        assert x !in s[1..] by {
          forall j | 0 <= j < |s[1..]| ensures s[1..][j] != x {
            assert s[0] != s[j + 1];
          }
        }
      }
    }
  }

  /** `s` without `x`. */
  function Without(s: seq<ListenerId>, x: ListenerId): (r: seq<ListenerId>)
    ensures |r| <= |s|
  {
    if s == [] then [] else (if s[0] == x then [] else [s[0]]) + Without(s[1..], x)
  }

  /** Exactly `x` is removed, nothing changes when it is absent, and a registry
      without duplicates stays so. */
  lemma {:induction false} WithoutMembers(s: seq<ListenerId>, x: ListenerId)
    ensures forall y :: y in Without(s, x) <==> y in s && y != x
    ensures x !in s ==> Without(s, x) == s
    ensures NoDuplicates(s) ==> NoDuplicates(Without(s, x))
  {
    if s != [] {
      var t := s[1..];
      WithoutMembers(t, x);
      assert s == [s[0]] + t;
      if NoDuplicates(s) {
        forall i, j | 0 <= i < j < |t| ensures t[i] != t[j] {
          assert s[i + 1] != s[j + 1];
        }
        forall j | 0 <= j < |t| ensures t[j] != s[0] {
          assert s[0] != s[j + 1];
        }
        assert s[0] !in Without(t, x);
      }
    }
  }

  /** Removal distributes over concatenation, so the listeners left keep their order. */
  lemma {:induction false} WithoutAppend(a: seq<ListenerId>, b: seq<ListenerId>, x: ListenerId)
    ensures Without(a + b, x) == Without(a, x) + Without(b, x)
  {
    if a == [] {
      assert a + b == b;
    } else {
      var t := a[1..];
      assert a + b == [a[0]] + (t + b);
      assert (a + b)[1..] == t + b;
      WithoutAppend(t, b, x);
      if a[0] != x {
        assert [a[0]] + (Without(t, x) + Without(b, x)) == ([a[0]] + Without(t, x)) + Without(b, x);
      }
    }
  }

  class ContactsHub {
    /** The `Set` of listeners, in insertion order (the order `forEach` visits). */
    var listeners: seq<ListenerId>
    /** Every listener invocation so far, oldest first. */
    var calls: seq<ListenerId>
    const store: ContactStore

    ghost predicate Valid()
      reads this
    {
      NoDuplicates(listeners)
    }

    constructor (store: ContactStore)
      ensures Valid() && listeners == [] && calls == [] && this.store == store
    {
      listeners := [];
      calls := [];
      this.store := store;
    }

    /** `subscribe`: `listeners.add(l)`; adding a member again changes nothing. */
    method Subscribe(l: ListenerId)
      requires Valid()
      modifies this
      ensures Valid()
      ensures listeners == if l in old(listeners) then old(listeners) else old(listeners) + [l]
      ensures calls == old(calls)
    {
      if l !in listeners {
        listeners := listeners + [l];
      }
    }

    /** The function `subscribe` returns: `listeners.delete(l)`, true iff it was there. */
    method Unsubscribe(l: ListenerId) returns (deleted: bool)
      requires Valid()
      modifies this
      ensures Valid()
      ensures deleted == (l in old(listeners))
      ensures listeners == Without(old(listeners), l) && l !in listeners
      ensures calls == old(calls)
    {
      deleted := l in listeners;
      WithoutMembers(listeners, l);
      listeners := Without(listeners, l);
    }

    /** `notify`: calls every registered listener once, in registration order. */
    method Notify()
      requires Valid()
      modifies this
      ensures Valid()
      ensures calls == old(calls) + listeners
      ensures forall x :: Occurrences(calls[|old(calls)|..], x) == if x in listeners then 1 else 0
      ensures listeners == old(listeners)
    {
      var i := 0;
      while i < |listeners|
        invariant 0 <= i <= |listeners|
        invariant calls == old(calls) + listeners[..i]
        invariant listeners == old(listeners)
      {
        calls := calls + [listeners[i]];
        i := i + 1;
      }
      assert calls[|old(calls)|..] == listeners;
      forall x ensures Occurrences(listeners, x) == if x in listeners then 1 else 0 {
        NotifyReachesEachOnce(listeners, x);
      }
    }

    /** The contacts the hook exposes: a fresh read of the store. */
    function Contacts(): (r: seq<Contact>)
      reads this, store
      ensures store.blob.Stored? ==> r == store.blob.contacts
      ensures !store.blob.Stored? ==> r == []
    {
      store.GetAll()
    }

    /** `addContact`: `contactStorage.add`, then `notify`, then the created record. */
    method AddContact(name: string, number: string, id: string) returns (created: Contact)
      requires Valid()
      modifies this, store
      ensures Valid()
      ensures created == Contact(id, name, number)
      ensures Contacts() == old(Contacts()) + [created]
      ensures calls == old(calls) + listeners && listeners == old(listeners)
    {
      created := store.Add(name, number, id);
      Notify();
    }

    /** `updateContact`: notifies even when no record matched. */
    method UpdateContact(id: string, updates: ContactUpdates) returns (updated: Option<Contact>)
      requires Valid()
      modifies this, store
      ensures Valid()
      ensures var cs := old(Contacts()); var i := FindIndex(cs, id);
        if i == -1 then updated == None && store.blob == old(store.blob)
        else updated == Some(Merge(cs[i], updates)) && Contacts() == cs[i := updated.value]
      ensures calls == old(calls) + listeners && listeners == old(listeners)
    {
      updated := store.Update(id, updates);
      Notify();
    }

    /** `deleteContact`: notifies even when nothing was removed. */
    method DeleteContact(id: string) returns (deleted: bool)
      requires Valid()
      modifies this, store
      ensures Valid()
      ensures var cs := old(Contacts());
        && deleted == (FindIndex(cs, id) >= 0)
        && (deleted ==> Contacts() == RemoveId(cs, id))
        && (!deleted ==> store.blob == old(store.blob))
      ensures calls == old(calls) + listeners && listeners == old(listeners)
    {
      deleted := store.Delete(id);
      Notify();
    }
  }
}
