/** One student application record as the remote JSON array delivers it. */
module Records {
  import opened Wrappers

  /** The eight property names a record may carry. */
  datatype Field =
    | ApplicationNO
    | ApplicantName
    | ApplicationDate
    | StudentID
    | PaidAmount
    | StatusEn
    | StatusAr
    | LastDate

  /** Every property is optional (absent reads as `undefined`) and, when present, a string. */
  datatype Record = Record(
    applicationNO: Option<string>,
    applicantName: Option<string>,
    applicationDate: Option<string>,
    studentID: Option<string>,
    paidAmount: Option<string>,
    status_En: Option<string>,
    status_Ar: Option<string>,
    lastDate: Option<string>)

  /** The JSON property name a key stands for. */
  function Name(key: Field): string
  {
    match key
    case ApplicationNO => "applicationNO"
    case ApplicantName => "applicantName"
    case ApplicationDate => "applicationDate"
    case StudentID => "studentID"
    case PaidAmount => "paidAmount"
    case StatusEn => "status_En"
    case StatusAr => "status_Ar"
    case LastDate => "lastDate"
  }

  /** The record as a JSON object: each property name with its value. */
  function AsObject(item: Record): map<string, Option<string>>
  {
    map[
      "applicationNO" := item.applicationNO,
      "applicantName" := item.applicantName,
      "applicationDate" := item.applicationDate,
      "studentID" := item.studentID,
      "paidAmount" := item.paidAmount,
      "status_En" := item.status_En,
      "status_Ar" := item.status_Ar,
      "lastDate" := item.lastDate]
  }

  /** `item[key]`: the value of the property that `key` names, `None` when it is undefined. */
  function Get(item: Record, key: Field): (v: Option<string>)
    ensures Name(key) in AsObject(item) && v == AsObject(item)[Name(key)]
  {
    match key
    case ApplicationNO => item.applicationNO
    case ApplicantName => item.applicantName
    case ApplicationDate => item.applicationDate
    case StudentID => item.studentID
    case PaidAmount => item.paidAmount
    case StatusEn => item.status_En
    case StatusAr => item.status_Ar
    case LastDate => item.lastDate
  }
}
