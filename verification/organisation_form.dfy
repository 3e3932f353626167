/** The pure mappings of the admin organisation form
    (components/admin/orgs/OrganisationControlForm.tsx): a table row to form
    values, the dropdown options, and the message after a save. */
module OrganisationFormMapping {
  import opened Wrappers
  import opened Seqs
  import opened Organisations

  /** Form values: the row spread with its first IG head's id and the ids of
      the ordinary members added. */
  datatype OrganisationForm = OrganisationForm(
    org: Organisation, userOrg: seq<UserOnOrg>, igHead: int, otherMembers: seq<int>)

  /** Reading `[0].user.id` of an empty filter throws a TypeError. */
  datatype ConvertError = NoIGHead

  function UserIdOf(m: UserOnOrg): int
  {
    m.user.id
  }

  /** `convertToOrganisationForm`. */
  function ConvertToOrganisationForm(o: OrganisationWithIGHead): (r: Result<OrganisationForm, ConvertError>)
    ensures r.Err? <==> forall i :: 0 <= i < |o.userOrg| ==> !o.userOrg[i].isIGHead
    ensures r.Ok? ==> r.value.org == o.org && r.value.userOrg == o.userOrg
  {
    FilterEmpty(IsHead(), o.userOrg);
    var heads := Filter(IsHead(), o.userOrg);
    if |heads| == 0 then Err(NoIGHead)
    else Ok(OrganisationForm(o.org, o.userOrg, heads[0].user.id, MemberIds(o.userOrg)))
  }

  /** The conversion fails exactly when there is no IG head; otherwise it
      keeps every field of the row and `igHead` is the id of the first head
      membership. */
  lemma ConvertHead(o: OrganisationWithIGHead)
    ensures ConvertToOrganisationForm(o).Err? <==> forall i :: 0 <= i < |o.userOrg| ==> !o.userOrg[i].isIGHead
    ensures ConvertToOrganisationForm(o).Ok? ==>
      && ConvertToOrganisationForm(o).value.org == o.org
      && ConvertToOrganisationForm(o).value.userOrg == o.userOrg
      && forall k :: FirstHead(o.userOrg, k) ==> ConvertToOrganisationForm(o).value.igHead == o.userOrg[k].user.id
  {
    FilterEmpty(IsHead(), o.userOrg);
    forall k | FirstHead(o.userOrg, k)
      ensures Filter(IsHead(), o.userOrg)[0] == o.userOrg[k]
    {
      FilterFirst(IsHead(), o.userOrg, k);
    }
  }

  /** The ids of the ordinary members, in order. */
  function MemberIds(userOrg: seq<UserOnOrg>): seq<int>
  {
    Map(UserIdOf, Filter(IsMember(), userOrg))
  }

  /** `otherMembers` holds the ids of the ordinary members, one per
      ordinary membership, so heads after the first appear in neither
      field. */
  lemma ConvertMembers(o: OrganisationWithIGHead)
    requires ConvertToOrganisationForm(o).Ok?
    ensures ConvertToOrganisationForm(o).value.otherMembers == MemberIds(o.userOrg)
    ensures |MemberIds(o.userOrg)| + |Filter(IsHead(), o.userOrg)| == |o.userOrg|
    ensures forall i :: 0 <= i < |MemberIds(o.userOrg)| ==> IsOrdinaryMemberId(o.userOrg, MemberIds(o.userOrg)[i])
    ensures forall j :: 0 <= j < |o.userOrg| && !o.userOrg[j].isIGHead ==> o.userOrg[j].user.id in MemberIds(o.userOrg)
  {
    FilterPartition(IsHead(), IsMember(), o.userOrg);
    MemberIdsSound(o.userOrg);
    MemberIdsComplete(o.userOrg);
  }

  lemma MemberIdsSound(userOrg: seq<UserOnOrg>)
    ensures forall i :: 0 <= i < |MemberIds(userOrg)| ==> IsOrdinaryMemberId(userOrg, MemberIds(userOrg)[i])
  {
    var members := Filter(IsMember(), userOrg);
    forall i | 0 <= i < |MemberIds(userOrg)|
      ensures IsOrdinaryMemberId(userOrg, MemberIds(userOrg)[i])
    {
      var m := members[i];
      assert m in userOrg && IsMember()(m);
      var j :| 0 <= j < |userOrg| && userOrg[j] == m;
      assert MemberIds(userOrg)[i] == UserIdOf(m);
      assert OrdinaryMemberId(userOrg, j, MemberIds(userOrg)[i]);
    }
  }

  lemma MemberIdsComplete(userOrg: seq<UserOnOrg>)
    ensures forall j :: 0 <= j < |userOrg| && !userOrg[j].isIGHead ==> userOrg[j].user.id in MemberIds(userOrg)
  {
    var members := Filter(IsMember(), userOrg);
    var ids := MemberIds(userOrg);
    forall j | 0 <= j < |userOrg| && !userOrg[j].isIGHead
      ensures userOrg[j].user.id in ids
    {
      assert IsMember()(userOrg[j]);
      assert userOrg[j] in members;
      var i :| 0 <= i < |members| && members[i] == userOrg[j];
      assert ids[i] == UserIdOf(members[i]);
    }
  }

  /** Membership j is an ordinary member's and has user id `id`. */
  predicate OrdinaryMemberId(userOrg: seq<UserOnOrg>, j: int, id: int)
  {
    0 <= j < |userOrg| && !userOrg[j].isIGHead && userOrg[j].user.id == id
  }

  /** Some ordinary membership has user id `id`. */
  predicate IsOrdinaryMemberId(userOrg: seq<UserOnOrg>, id: int)
  {
    exists j :: 0 <= j < |userOrg| && OrdinaryMemberId(userOrg, j, id)
  }

  /** One dropdown option. */
  datatype SelectOption<V> = SelectOption(value: V, description: string)

  /** `categories`: one option per category key, value and description both
      the key. The keys stand for `Object.keys` of the category map. */
  function Categories(keys: seq<string>): (r: seq<SelectOption<string>>)
    ensures |r| == |keys|
    ensures forall i :: 0 <= i < |keys| ==> r[i].value == keys[i] && r[i].description == keys[i]
  {
    Map((k: string) => SelectOption(k, k), keys)
  }

  /** `mappedUsers`: one option per user, in order, valued by id and
      described by Telegram user name. */
  function MappedUsers(users: seq<User>): (r: seq<SelectOption<int>>)
    ensures |r| == |users|
    ensures forall i :: 0 <= i < |users| ==> r[i].value == users[i].id && r[i].description == users[i].telegramUserName
  {
    Map((u: User) => SelectOption(u.id, u.telegramUserName), users)
  }

  const CreatedMessage: string := "Org created successfully!"
  const EditedMessage: string := "Org edited successfully"

  /** The toast after a successful save: "created" exactly when the parsed
      `igHead` is the default -1 of a new form, "edited" otherwise. */
  function SuccessMessage(igHead: int): (r: string)
    ensures r == CreatedMessage <==> igHead == -1
    ensures r == EditedMessage <==> igHead != -1
  {
    if igHead == -1 then CreatedMessage else EditedMessage
  }
}
