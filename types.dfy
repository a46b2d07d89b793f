// The records the CRM keeps: leads, categories, companies and tasks.
// Timestamps are milliseconds since the epoch; money amounts are whole units.

module Types {

  datatype Option<T> = None | Some(value: T)

  /** The value carried by `o`, or `default` when there is none. */
  function Or<T>(o: Option<T>, default: T): T
  {
    match o
    case Some(v) => v
    case None => default
  }

  datatype Category = Category(id: string, name: string, color: string)

  /** The six stages a lead goes through. */
  datatype LeadStatus = New | Contacted | Proposal | Won | Lost | Expired

  datatype Lead = Lead(
    id: string,
    name: string,
    email: Option<string>,
    phone: Option<string>,
    source: Option<string>,
    status: LeadStatus,
    estimatedValue: int,
    sellerId: string,
    companyId: Option<string>,
    categoryId: Option<string>,
    expirationDate: Option<int>,
    categories: Option<Category>,   // the category row joined in by the backend
    createdAt: int)

  /**
   * One element of a list read back from storage. A stored list may hold
   * `null` where a record is expected; every reader guards against it.
   */
  datatype Entry = Null | Rec(lead: Lead)

  /**
   * A shallow set of lead fields, as `Partial<Lead>`: a `Some` field
   * overwrites the record's field, a `None` field leaves it alone.
   */
  datatype LeadPatch = LeadPatch(
    id: Option<string>,
    name: Option<string>,
    email: Option<Option<string>>,
    phone: Option<Option<string>>,
    source: Option<Option<string>>,
    status: Option<LeadStatus>,
    estimatedValue: Option<int>,
    sellerId: Option<string>,
    companyId: Option<Option<string>>,
    categoryId: Option<Option<string>>,
    expirationDate: Option<Option<int>>,
    categories: Option<Option<Category>>,
    createdAt: Option<int>)

  /** The patch `{ status: s }`. */
  function StatusPatch(s: LeadStatus): LeadPatch
  {
    LeadPatch(None, None, None, None, None, Some(s), None, None, None, None, None, None, None)
  }

  /** `{ ...l, ...u }`. */
  function Spread(l: Lead, u: LeadPatch): Lead
  {
    Lead(
      Or(u.id, l.id), Or(u.name, l.name), Or(u.email, l.email), Or(u.phone, l.phone),
      Or(u.source, l.source), Or(u.status, l.status), Or(u.estimatedValue, l.estimatedValue),
      Or(u.sellerId, l.sellerId), Or(u.companyId, l.companyId), Or(u.categoryId, l.categoryId),
      Or(u.expirationDate, l.expirationDate), Or(u.categories, l.categories),
      Or(u.createdAt, l.createdAt))
  }

  /** Spreading a status-only patch changes the status and nothing else. */
  lemma SpreadStatusOnly(l: Lead, s: LeadStatus)
    ensures Spread(l, StatusPatch(s)) == l.(status := s)
  {
  }

  datatype CompanyStatus = Active | Inactive

  datatype Company = Company(
    id: string,
    name: string,
    cnpj: Option<string>,
    phone: Option<string>,
    email: Option<string>,
    address: Option<string>,
    status: CompanyStatus,
    createdAt: int)

  datatype Priority = Low | Medium | High

  datatype TaskStatus = Pending | InProgress | Completed

  datatype Task = Task(
    id: string,
    title: string,
    description: Option<string>,
    userId: string,
    leadId: Option<string>,
    dueDate: string,
    priority: Priority,
    status: TaskStatus)
}
