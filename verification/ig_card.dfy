/** What the IG card (components/IGCard.tsx) derives from an organisation:
    its heads, the heads line, the primary head, the logo path, the invite
    link and the contact label. */
module IgCard {
  import opened Wrappers
  import opened Seqs
  import opened Organisations

  /** `igHeads`: the memberships of IG heads, in order. */
  function IgHeads(o: OrganisationWithIGHead): (heads: seq<UserOnOrg>)
    ensures |heads| <= |o.userOrg|
    ensures forall i :: 0 <= i < |heads| ==> heads[i].isIGHead && heads[i] in o.userOrg
  {
    Filter(IsHead(), o.userOrg)
  }

  /** The heads are exactly the head memberships, in their original order:
      splitting the members splits the heads, and heads plus ordinary
      members account for every membership. */
  lemma IgHeadsSpec(o: OrganisationWithIGHead, more: seq<UserOnOrg>)
    ensures forall i :: 0 <= i < |IgHeads(o)| ==> IgHeads(o)[i].isIGHead && IgHeads(o)[i] in o.userOrg
    ensures forall i :: 0 <= i < |o.userOrg| && o.userOrg[i].isIGHead ==> o.userOrg[i] in IgHeads(o)
    ensures IgHeads(OrganisationWithIGHead(o.org, o.userOrg + more)) == IgHeads(o) + Filter(IsHead(), more)
    ensures |IgHeads(o)| + |Filter(IsMember(), o.userOrg)| == |o.userOrg|
  {
    FilterAppend(IsHead(), o.userOrg, more);
    FilterPartition(IsHead(), IsMember(), o.userOrg);
  }

  /** `igHeadsDisplay`: "No IG Heads", the only name, or the names joined
      by ", ". */
  function HeadsDisplay(names: seq<string>): (r: string)
    ensures |names| == 0 ==> r == "No IG Heads"
    ensures |names| > 0 ==> r == Join(names, ", ")
  {
    if |names| > 0 then
      if |names| == 1 then names[0] else Join(names, ", ")
    else "No IG Heads"
  }

  /** The single-name case is the join of one name, so the line is "No IG
      Heads" without heads and the comma-joined names otherwise; it starts
      with the first name and its length is the names' plus two per comma. */
  lemma HeadsDisplayIsJoin(names: seq<string>)
    ensures |names| == 0 ==> HeadsDisplay(names) == "No IG Heads"
    ensures |names| > 0 ==> HeadsDisplay(names) == Join(names, ", ")
    ensures |names| > 0 ==> HeadsDisplay(names)[..|names[0]|] == names[0]
    ensures |names| > 0 ==> |HeadsDisplay(names)| == TotalLength(names) + 2 * (|names| - 1)
  {
  }

  /** The names of the heads, in order: `igHeads.map(h => h.user.name)`. */
  function HeadNames(o: OrganisationWithIGHead): seq<string>
  {
    Map((m: UserOnOrg) => m.user.name, IgHeads(o))
  }

  /** The card's heads line: "No IG Heads" for an organisation without a
      head membership; otherwise its heads' names joined by ", ", starting
      with the name of the first head membership. */
  lemma HeadsLineOfOrganisation(o: OrganisationWithIGHead)
    ensures (forall i :: 0 <= i < |o.userOrg| ==> !o.userOrg[i].isIGHead) ==>
      HeadsDisplay(HeadNames(o)) == "No IG Heads"
    ensures (exists i :: 0 <= i < |o.userOrg| && o.userOrg[i].isIGHead) ==>
      && HeadsDisplay(HeadNames(o)) == Join(HeadNames(o), ", ")
      && |HeadNames(o)| == |IgHeads(o)|
      && forall k :: FirstHead(o.userOrg, k) ==> o.userOrg[k].user.name <= HeadsDisplay(HeadNames(o))
  {
    FilterEmpty(IsHead(), o.userOrg);
    var names := HeadNames(o);
    HeadsDisplayIsJoin(names);
    if |IgHeads(o)| > 0 {
      FirstHeadExists(o.userOrg);
      forall k | FirstHead(o.userOrg, k)
        ensures o.userOrg[k].user.name <= HeadsDisplay(names)
      {
        var k0 :| FirstHead(o.userOrg, k0) && IgHeads(o)[0] == o.userOrg[k0];
        FirstHeadUnique(o.userOrg, k, k0);
        assert names[0] == o.userOrg[k].user.name;
        assert HeadsDisplay(names)[..|names[0]|] == names[0];
      }
    }
  }

  /** `primaryIGHead`: the first head's user, or `null` without heads. */
  function PrimaryIGHead(o: OrganisationWithIGHead): (r: Option<User>)
    ensures r.None? <==> forall i :: 0 <= i < |o.userOrg| ==> !o.userOrg[i].isIGHead
    ensures r.Some? ==> exists k :: FirstHead(o.userOrg, k) && r.value == o.userOrg[k].user
  {
    FilterEmpty(IsHead(), o.userOrg);
    var heads := IgHeads(o);
    if |heads| > 0 then
      FirstHeadExists(o.userOrg);
      Some(heads[0].user)
    else None
  }

  /** When there is a head, the filter's head is the first one. */
  lemma FirstHeadExists(userOrg: seq<UserOnOrg>)
    requires |Filter(IsHead(), userOrg)| > 0
    ensures exists k :: FirstHead(userOrg, k) && Filter(IsHead(), userOrg)[0] == userOrg[k]
  {
    FilterEmpty(IsHead(), userOrg);
    var i :| 0 <= i < |userOrg| && userOrg[i].isIGHead;
    var k := FirstIndex(userOrg, i);
    FilterFirst(IsHead(), userOrg, k);
  }

  lemma FirstHeadUnique(userOrg: seq<UserOnOrg>, k: int, k': int)
    requires FirstHead(userOrg, k) && FirstHead(userOrg, k')
    ensures k == k'
  {
  }

  /** The least index of a head, given that index `i` is one. */
  lemma {:induction false} FirstIndex(userOrg: seq<UserOnOrg>, i: int) returns (k: int)
    requires 0 <= i < |userOrg| && userOrg[i].isIGHead
    ensures FirstHead(userOrg, k) && k <= i
    decreases i
  {
    if exists j :: 0 <= j < i && userOrg[j].isIGHead {
      var j :| 0 <= j < i && userOrg[j].isIGHead;
      k := FirstIndex(userOrg, j);
    } else {
      k := i;
    }
  }

  /** `ig_info.slug || DEFAULT_PNG_NAME`; the default name lives in a file
      outside this model and is a parameter here. */
  function Slug(o: OrganisationWithIGHead, defaultPngName: string): (r: string)
    ensures o.org.slug != "" ==> r == o.org.slug
    ensures o.org.slug == "" ==> r == defaultPngName
  {
    if o.org.slug != "" then o.org.slug else defaultPngName
  }

  /** The logo path: "/orgs/" + slug + ".png". */
  function ImageSrc(o: OrganisationWithIGHead, defaultPngName: string): (r: string)
    ensures |r| == |Slug(o, defaultPngName)| + 10
    ensures r[..6] == "/orgs/" && r[|r| - 4..] == ".png"
    ensures r[6..|r| - 4] == Slug(o, defaultPngName)
  {
    "/orgs/" + Slug(o, defaultPngName) + ".png"
  }

  const TelegramPrefix: string := "https://t.me/"

  /** `inviteLink`: the organisation's own link when set, else the primary
      head's Telegram link when there is a head, else the empty string. */
  function InviteLink(o: OrganisationWithIGHead): (r: string)
    ensures r == "" <==> o.org.inviteLink == "" && forall i :: 0 <= i < |o.userOrg| ==> !o.userOrg[i].isIGHead
  {
    FilterEmpty(IsHead(), o.userOrg);
    if o.org.inviteLink != "" then o.org.inviteLink
    else if |IgHeads(o)| > 0 then TelegramPrefix + PrimaryIGHead(o).value.telegramUserName
    else ""
  }

  /** The link is never empty when the organisation has a link or a head:
      it is the organisation's link, or the Telegram link of the first head
      membership. */
  lemma InviteLinkSpec(o: OrganisationWithIGHead)
    ensures o.org.inviteLink != "" ==> InviteLink(o) == o.org.inviteLink
    ensures o.org.inviteLink == "" && (forall i :: 0 <= i < |o.userOrg| ==> !o.userOrg[i].isIGHead) ==> InviteLink(o) == ""
    ensures o.org.inviteLink == "" ==> forall k :: FirstHead(o.userOrg, k) ==>
      InviteLink(o) == TelegramPrefix + o.userOrg[k].user.telegramUserName
  {
    FilterEmpty(IsHead(), o.userOrg);
    forall k | FirstHead(o.userOrg, k)
      ensures PrimaryIGHead(o) == Some(o.userOrg[k].user)
    {
      assert o.userOrg[k].isIGHead;
      var k' :| FirstHead(o.userOrg, k') && PrimaryIGHead(o).value == o.userOrg[k'].user;
      FirstHeadUnique(o.userOrg, k, k');
    }
  }

  /** The contact button label: the contact's name, or "No contact found"
      when there is no contact or the name is empty. */
  function ContactLabel(contact: Option<User>): (r: string)
    ensures r != ""
    ensures contact.Some? && contact.value.name != "" ==> r == contact.value.name
    ensures contact.None? || contact.value.name == "" ==> r == "No contact found"
  {
    if contact.Some? && contact.value.name != "" then contact.value.name else "No contact found"
  }
}
