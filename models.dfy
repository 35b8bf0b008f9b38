/** The three persisted tables: marriage requests, marriages and baby records.
    Times are integer seconds on the local clock. */
module Models {

  type UserId = string

  datatype RequestStatus = Pending | Accepted | Rejected | Expired

  datatype MarriageRequest = MarriageRequest(
    requestId: string,
    proposerId: UserId,
    proposerName: string,
    targetId: UserId,
    targetName: string,
    groupId: string,
    createdAt: int,
    status: RequestStatus)

  datatype MarriageStatus = Married | Divorced

  datatype Marriage = Marriage(
    marriageId: string,
    proposerId: UserId,
    proposerName: string,
    targetId: UserId,
    targetName: string,
    groupId: string,
    marriedAt: int,
    status: MarriageStatus)

  datatype BabyRecord = BabyRecord(
    marriageId: string,
    parent1Id: UserId,
    parent1Name: string,
    parent2Id: UserId,
    parent2Name: string,
    babyCount: nat,
    createdAt: int,
    groupId: string)

  /** `request_id` is a unique column. */
  ghost predicate UniqueRequestIds(rows: seq<MarriageRequest>)
  {
    forall i, j :: 0 <= i < |rows| && 0 <= j < |rows| && rows[i].requestId == rows[j].requestId ==> i == j
  }

  /** `marriage_id` is a unique column. */
  ghost predicate UniqueMarriageIds(rows: seq<Marriage>)
  {
    forall i, j :: 0 <= i < |rows| && 0 <= j < |rows| && rows[i].marriageId == rows[j].marriageId ==> i == j
  }
}
