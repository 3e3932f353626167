/** Organisations, their members and the user records the IG card and the
    admin form read (types/global.d.ts). */
module Organisations {

  datatype User = User(id: int, name: string, telegramUserName: string)

  /** `UserOnOrg` without its back-reference to the organisation. */
  datatype UserOnOrg = UserOnOrg(user: User, isIGHead: bool)

  datatype Organisation = Organisation(
    id: int, name: string, description: string, isAdminOrg: bool,
    inviteLink: string, slug: string, category: string,
    isInactive: bool, isInvisible: bool)

  /** `OrganisationWithIGHead`: an organisation and its memberships. */
  datatype OrganisationWithIGHead = OrganisationWithIGHead(org: Organisation, userOrg: seq<UserOnOrg>)

  /** Is the membership an IG head's? */
  function IsHead(): UserOnOrg -> bool
  {
    (m: UserOnOrg) => m.isIGHead
  }

  /** Is the membership an ordinary member's? */
  function IsMember(): UserOnOrg -> bool
  {
    (m: UserOnOrg) => !m.isIGHead
  }

  /** Index of the first IG head among the memberships. */
  predicate FirstHead(userOrg: seq<UserOnOrg>, k: int)
  {
    0 <= k < |userOrg| && userOrg[k].isIGHead && forall j :: 0 <= j < k ==> !userOrg[j].isIGHead
  }
}
