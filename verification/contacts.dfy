/** The contact-list edits shared, in identical copies, by
    handlers/new/tasks.tsx and handlers/new/materials.tsx, and the mapping of
    the selected contacts to `{ id }` references that both `handleDone`s use. */
module Contacts {
  import opened Common
  import opened Forms

  /** handleContactSelect: `[...selectedContacts, contact]`; a contact already
      selected is added again. */
  function ContactSelect(contact: UserView, selectedContacts: seq<UserView>): (r: seq<UserView>)
    ensures |r| == |selectedContacts| + 1
    ensures r[..|selectedContacts|] == selectedContacts && r[|selectedContacts|] == contact
  {
    selectedContacts + [contact]
  }

  /** handleContactRemove:
      `selectedContacts.filter(contact => contact.user_id.toString() !== userId)` */
  function ContactRemove(userId: string, selectedContacts: seq<UserView>): (r: seq<UserView>)
    ensures |r| <= |selectedContacts|
    ensures forall i :: 0 <= i < |r| ==> r[i] in selectedContacts && IntToString(r[i].user_id) != userId
    ensures forall i :: 0 <= i < |selectedContacts| && IntToString(selectedContacts[i].user_id) != userId ==>
      selectedContacts[i] in r
  {
    if selectedContacts == [] then []
    else
      var c := selectedContacts[0];
      (if IntToString(c.user_id) != userId then [c] else []) + ContactRemove(userId, selectedContacts[1..])
  }

  /** Since `toString()` tells numbers apart, removing by the string of a
      `user_id` removes exactly the contacts with that `user_id`. */
  lemma RemoveByUserId(userId: int, selectedContacts: seq<UserView>)
    ensures var r := ContactRemove(IntToString(userId), selectedContacts);
      && (forall i :: 0 <= i < |r| ==> r[i].user_id != userId)
      && (forall i :: 0 <= i < |selectedContacts| && selectedContacts[i].user_id != userId ==>
            selectedContacts[i] in r)
  {
    forall i | 0 <= i < |selectedContacts| && selectedContacts[i].user_id != userId
      ensures IntToString(selectedContacts[i].user_id) != IntToString(userId)
    {
      if IntToString(selectedContacts[i].user_id) == IntToString(userId) {
        IntToStringInjective(selectedContacts[i].user_id, userId);
      }
    }
  }

  /** Removal works piecewise, so the remaining contacts keep their order. */
  lemma {:induction false} ContactRemoveAppend(userId: string, a: seq<UserView>, b: seq<UserView>)
    ensures ContactRemove(userId, a + b) == ContactRemove(userId, a) + ContactRemove(userId, b)
    decreases |a|
  {
    if a == [] {
      assert a + b == b;
    } else {
      assert (a + b)[0] == a[0] && (a + b)[1..] == a[1..] + b;
      ContactRemoveAppend(userId, a[1..], b);
    }
  }

  /** Selecting a contact and then removing its id is removing that id. */
  lemma SelectThenRemove(contact: UserView, selectedContacts: seq<UserView>)
    ensures ContactRemove(IntToString(contact.user_id), ContactSelect(contact, selectedContacts))
         == ContactRemove(IntToString(contact.user_id), selectedContacts)
  {
    var id := IntToString(contact.user_id);
    ContactRemoveAppend(id, selectedContacts, [contact]);
    assert ContactRemove(id, [contact]) == [];
  }

  /** `selectedContacts.map(contact => ({ id: contact.user_id.toString() }))`,
      kept as the ids. */
  function ContactIds(selectedContacts: seq<UserView>): (r: seq<string>)
    ensures |r| == |selectedContacts|
    ensures forall i :: 0 <= i < |r| ==> r[i] == IntToString(selectedContacts[i].user_id)
  {
    seq(|selectedContacts|, i requires 0 <= i < |selectedContacts| => IntToString(selectedContacts[i].user_id))
  }

  /** After removing an id, that id is no longer among the ids `handleDone`
      passes on. */
  lemma RemovedIdGone(userId: string, selectedContacts: seq<UserView>)
    ensures userId !in ContactIds(ContactRemove(userId, selectedContacts))
  {
  }
}
