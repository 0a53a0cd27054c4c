/** The values of the persona service: projects, detections and replies. */
module PersonaModel {

  datatype Option<+T> = None | Some(value: T)

  /** The detection source tokens the service emits. */
  datatype Source =
    | BoardMember
    | ExecutiveDirector
    | CdpRoles
    | Writer
    | Auditor
    | CommitteeMember
    | MailingList
    | MeetingAttendance

  datatype Organization = Organization(id: string, name: string, website: string)

  /** A role as it is passed on in the extra payload of a cdp_roles detection. */
  datatype ExtraRole = ExtraRole(
    id: string, role: string, startDate: string, endDate: Option<string>, repoUrl: string, repoFileUrl: string)

  /** The extra payload of a detection, as the value that is marshalled. */
  datatype Extra =
    | NoExtra
    | BoardExtra(committeeUid: string, committeeName: string, memberUid: string,
                 role: string, votingStatus: string, organization: Organization)
    | CommitteeExtra(committeeUid: string, committeeName: string, memberUid: string, role: string)
    | RolesExtra(contributionCount: int, roles: seq<ExtraRole>)

  datatype Detection = Detection(source: Source, extra: Extra)

  datatype Project = Project(uid: string, slug: string, detections: seq<Detection>)

  datatype ErrorCode = InvalidRequest | ValidationError | HandlerTimeout

  datatype Response = Response(projects: seq<Project>, error: Option<ErrorCode>)

  /** What one source goroutine puts on the results channel. */
  datatype Outcome = Failed | Succeeded(projects: seq<Project>)
}
