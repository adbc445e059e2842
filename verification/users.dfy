/**
  The `User` record and the list operation the stores use to delete one:
  `MutableList.remove(element)`, which removes the first element equal to
  `element` (data-class equality) and leaves the list alone when there is none.
 */
module Users {

  /** `User(id, name, email)`; a data class, so equality is structural. */
  datatype User = User(id: int, name: string, email: string)

  /** `indexOf(u)`: the position of the first element equal to `u`, or -1. */
  function IndexOf(s: seq<User>, u: User): (i: int)
    ensures -1 <= i < |s|
    ensures i == -1 <==> u !in s
    ensures 0 <= i ==> s[i] == u && u !in s[..i]
  {
    if s == [] then -1
    else if s[0] == u then 0
    else
      var j := IndexOf(s[1..], u);
      if j == -1 then -1
      else
        assert s[..j + 1] == [s[0]] + s[1..][..j];
        j + 1
  }

  /** `remove(u)` on a list: drop the first element equal to `u`, if any. */
  function RemoveFirst(s: seq<User>, u: User): (r: seq<User>)
    ensures u !in s ==> r == s
    ensures u in s ==> |r| == |s| - 1
    ensures forall v :: v in r ==> v in s
  {
    var i := IndexOf(s, u);
    if i == -1 then s else s[..i] + s[i + 1..]
  }

  /** What `remove` leaves when `u` is present: everything before its first
      occurrence, then everything after it, in the same order. */
  lemma RemoveFirstOccurrence(s: seq<User>, u: User) returns (i: int)
    requires u in s
    ensures 0 <= i < |s| && s[i] == u && u !in s[..i]
    ensures RemoveFirst(s, u) == s[..i] + s[i + 1..]
  {
    i := IndexOf(s, u);
  }

  /** `remove` takes away exactly one copy of `u` when there is one, and nothing else. */
  lemma RemoveFirstMultiset(s: seq<User>, u: User)
    ensures multiset(RemoveFirst(s, u)) == multiset(s) - multiset{u}
  {
    var i := IndexOf(s, u);
    if i == -1 {
      assert multiset(s)[u] == 0;
    } else {
      assert s == s[..i] + [s[i]] + s[i + 1..];
    }
  }

  /** Appending a user the list does not yet hold and then removing it gives the list back. */
  lemma AddThenRemoveRestores(s: seq<User>, u: User)
    requires u !in s
    ensures RemoveFirst(s + [u], u) == s
  {
    var t := s + [u];
    assert t[|s|] == u;
    var i := RemoveFirstOccurrence(t, u);
    assert i == |s|;
    assert t[..i] == s;
  }

  /** Removing an element and appending it again permutes the list. */
  lemma RemoveThenAppendIsPermutation(s: seq<User>, u: User)
    requires u in s
    ensures multiset(RemoveFirst(s, u) + [u]) == multiset(s)
  {
    RemoveFirstMultiset(s, u);
    assert multiset(s)[u] > 0;
  }

  /** The name and email of a user: what a re-created user has in common with the original. */
  function Contact(u: User): (string, string)
  {
    (u.name, u.email)
  }

  function Contacts(s: seq<User>): seq<(string, string)>
  {
    seq(|s|, k requires 0 <= k < |s| => Contact(s[k]))
  }

  /** Moving one element to the end permutes a sequence. */
  lemma MoveToEndIsPermutation<T>(c: seq<T>, i: int)
    requires 0 <= i < |c|
    ensures multiset(c[..i] + c[i + 1..] + [c[i]]) == multiset(c)
  {
    assert c == c[..i] + [c[i]] + c[i + 1..];
  }

  /** The name/email pairs after removing the user at position `i` and appending `u'`. */
  lemma ContactsAfterReAdd(s: seq<User>, i: int, u': User)
    requires 0 <= i < |s|
    requires Contact(u') == Contact(s[i])
    ensures Contacts(s[..i] + s[i + 1..] + [u']) == Contacts(s)[..i] + Contacts(s)[i + 1..] + [Contacts(s)[i]]
  {
    var c := Contacts(s);
    var r := s[..i] + s[i + 1..] + [u'];
    var d := Contacts(r);
    var e := c[..i] + c[i + 1..] + [c[i]];
    forall k | 0 <= k < |s|
      ensures d[k] == e[k]
    {
      if k < i {
        assert r[k] == s[k];
      } else if k < |s| - 1 {
        assert r[k] == s[k + 1];
      } else {
        assert r[k] == u';
      }
    }
  }

  /** Removing `u` and appending a user with the same name and email (whatever its id)
      gives back the same name/email pairs, each as often as before. */
  lemma RemoveThenReAddRestoresContacts(s: seq<User>, u: User, u': User)
    requires u in s
    requires Contact(u') == Contact(u)
    ensures multiset(Contacts(RemoveFirst(s, u) + [u'])) == multiset(Contacts(s))
  {
    var i := RemoveFirstOccurrence(s, u);
    ContactsAfterReAdd(s, i, u');
    MoveToEndIsPermutation(Contacts(s), i);
  }
}
