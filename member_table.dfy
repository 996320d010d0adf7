/** The member list's view state (search text, modal flag, member being edited) and the
    handlers that change it or turn a click into a mutation. */
module MemberTable {
  import opened Text
  import opened Js
  import opened MemberSearch
  import opened MembersApi
  import Calendar
  import MemberModal

  /** `members.find((m) => m.id === id)`: the first member with that id. */
  function FindMember(members: seq<Record>, id: Value): (r: Option<Record>)
    ensures r.Some? <==> exists i :: 0 <= i < |members| && Get(members[i], "id") == id
    ensures r.Some? ==> exists i :: 0 <= i < |members| && members[i] == r.value
                          && Get(members[i], "id") == id
                          && forall j :: 0 <= j < i ==> Get(members[j], "id") != id
    decreases |members|
  {
    if members == [] then None
    else if Get(members[0], "id") == id then Some(members[0])
    else
      var r := FindMember(members[1..], id);
      if r.Some? then
        ghost var i :| 0 <= i < |members[1..]| && members[1..][i] == r.value
                   && Get(members[1..][i], "id") == id
                   && forall j :: 0 <= j < i ==> Get(members[1..][j], "id") != id;
        assert members[i + 1] == r.value && forall j :: 1 <= j < i + 1 ==> Get(members[j], "id") != id;
        r
      else r
  }

  /** `handleDelete(id)`: nothing unless a member has that id and the confirmation is
      accepted; then the delete of that member (the first with the id). Only a found
      member is put to the confirmation, so `confirmed` is read only then. */
  function HandleDelete(members: seq<Record>, id: Value, confirmed: bool): (call: Option<Mutation>)
    ensures call.None? <==> FindMember(members, id).None? || !confirmed
    ensures call.Some? ==> call.value == DeleteCall(id, FindMember(members, id).value)
  {
    match FindMember(members, id)
    case None => None
    case Some(m) => if confirmed then Some(DeleteCall(id, m)) else None
  }

  /** The requests a confirmed delete issues: DELETE of that id, then the history POST of
      the member found. */
  lemma HandleDeleteRequests(members: seq<Record>, id: Value, date: string)
    requires FindMember(members, id).Some?
    ensures var call := HandleDelete(members, id, true);
      && call.Some?
      && MutationRequests(call.value, date)
         == DeleteMemberRequests(id, FindMember(members, id).value, date)
      && Invalidates(call.value) == {Members, DeleteHistory}
  {
  }

  class TableView {
    var searchText: string
    var showModal: bool
    var editingMember: Option<Record>

    /** The stored search text is always in normal form. */
    ghost predicate Valid()
      reads this
    {
      IsSearchText(searchText)
    }

    /** The three `useState` initial values. */
    constructor()
      ensures Valid()
      ensures searchText == "" && !showModal && editingMember == None
    {
      searchText := "";
      showModal := false;
      editingMember := None;
    }

    /** `handleSearch`: store the input lower-cased and trimmed. */
    method HandleSearch(input: string)
      modifies this
      ensures Valid()
      ensures searchText == NormalizeSearch(input)
      ensures showModal == old(showModal) && editingMember == old(editingMember)
    {
      NormalizeSearchShape(input);
      searchText := NormalizeSearch(input);
    }

    /** `openModal(member = null)`: None is the Add button, Some is a row or its Edit button. */
    method OpenModal(member: Option<Record>)
      requires Valid()
      modifies this
      ensures Valid()
      ensures showModal && editingMember == member
      ensures searchText == old(searchText)
    {
      editingMember := member;
      showModal := true;
    }

    method CloseModal()
      requires Valid()
      modifies this
      ensures Valid()
      ensures !showModal && editingMember == None
      ensures searchText == old(searchText)
    {
      showModal := false;
      editingMember := None;
    }

    /** `handleSubmit(memberData)`: an update of the edited member's id when one is being
      edited, an add otherwise. The view state does not change. */
    method HandleSubmit(memberData: Record) returns (call: Mutation)
      ensures editingMember.Some? <==> call.UpdateCall?
      ensures editingMember.Some? ==> call == UpdateCall(Get(editingMember.value, "id"), memberData)
      ensures editingMember.None? ==> call == AddCall(memberData)
    {
      if editingMember.Some? {
        call := UpdateCall(Get(editingMember.value, "id"), memberData);
      } else {
        call := AddCall(memberData);
      }
    }

    /** `onSuccess` of the add and update mutations: the modal closes, while the edited
      member stays as it was until the next `openModal` or `closeModal`. The delete
      mutation's `onSuccess` only refreshes the caches. */
    method OnSaved(call: Mutation)
      requires Valid()
      modifies this
      ensures Valid()
      ensures showModal == if call.AddCall? || call.UpdateCall? then false else old(showModal)
      ensures editingMember == old(editingMember) && searchText == old(searchText)
    {
      if call.AddCall? || call.UpdateCall? {
        showModal := false;
      }
    }

    /** The rows the table shows for the cached member list. */
    function Shown(members: seq<Record>): (rows: seq<Record>)
      reads this
      ensures IsSubsequence(rows, members) && |rows| <= |members|
    {
      FilterIsSubsequence(members, searchText);
      FilterMembers(members, searchText)
    }
  }

  /** Edit a member, change a field, close the modal (Cancel or the close button), then
      press Add: the form the modal now shows holds the creation defaults and nothing of
      the edit. The modal is rendered only while `showModal` holds, so closing unmounts the
      edited form and Add mounts a new one, whose effect sees the cleared `editingMember`. */
  method EditCancelAdd(a: Record, typed: string, today: Calendar.Date)
    returns (view: TableView, form: MemberModal.MemberForm)
    requires Calendar.Valid(today)
    ensures view.Valid() && view.showModal && view.editingMember == None
    ensures form.data == MemberModal.CreateDefaults(today)
  {
    view := new TableView();
    view.OpenModal(Some(a));
    var editing := new MemberModal.MemberForm();
    var _ := editing.Sync(view.editingMember, today);
    editing.HandleChange(MemberModal.Name, typed);
    view.CloseModal();
    view.OpenModal(None);
    form := new MemberModal.MemberForm();
    var _ := form.Sync(view.editingMember, today);
  }
}
