// The companies page: the search over the list and the list updates after
// an insert or a delete the backend accepted.

module Companies {
  import opened Types
  import opened Text

  /** The search: the name, ignoring case, or the CNPJ, exactly, contains the term. */
  function CompanyMatches(c: Company, search: string): (r: bool)
    ensures search == "" ==> r
  {
    ContainsEmpty(Lower(c.name));
    Contains(Lower(c.name), Lower(search))
    || (c.cnpj.Some? && c.cnpj.value != "" && Contains(c.cnpj.value, search))
  }

  /** `companies.filter(...)`. */
  function FilterCompanies(companies: seq<Company>, search: string): (r: seq<Company>)
    ensures forall c :: c in r <==> c in companies && CompanyMatches(c, search)
    ensures |r| <= |companies|
  {
    if companies == [] then []
    else
      var head := if CompanyMatches(companies[0], search) then [companies[0]] else [];
      head + FilterCompanies(companies[1..], search)
  }

  /** An empty search keeps every company, in order. */
  lemma {:induction false} EmptySearchKeepsAll(companies: seq<Company>)
    ensures FilterCompanies(companies, "") == companies
  {
    if companies != [] {
      ContainsEmpty(Lower(companies[0].name));
      EmptySearchKeepsAll(companies[1..]);
      assert companies == [companies[0]] + companies[1..];
    }
  }

  /** Without a CNPJ only the name is searched, and the case of the term does not matter. */
  lemma NameSearchIgnoresCase(c: Company, search: string)
    requires c.cnpj.None?
    ensures CompanyMatches(c, search) == CompanyMatches(c, Lower(search))
    ensures CompanyMatches(c, search) == Contains(Lower(c.name), Lower(search))
  {
    LowerIdempotent(search);
  }

  /** The CNPJ search is exact: a CNPJ is found by itself. */
  lemma CnpjFindsItself(c: Company)
    requires c.cnpj.Some? && c.cnpj.value != ""
    ensures CompanyMatches(c, c.cnpj.value)
  {
    ContainsSelf(c.cnpj.value);
  }

  /** `prev.filter(c => c.id !== id)`. */
  function DropCompany(companies: seq<Company>, id: string): (r: seq<Company>)
    ensures forall c :: c in r <==> c in companies && c.id != id
    ensures |r| <= |companies|
  {
    if companies == [] then []
    else (if companies[0].id != id then [companies[0]] else []) + DropCompany(companies[1..], id)
  }

  /** The new-company form. */
  datatype CompanyForm = CompanyForm(name: string, cnpj: string, phone: string, email: string, address: string)

  const EmptyCompanyForm := CompanyForm("", "", "", "", "")

  /** The page's state: the company list and the new-company form. */
  class CompaniesPage {
    var companies: seq<Company>
    var form: CompanyForm

    constructor ()
      ensures companies == [] && form == EmptyCompanyForm
    {
      companies := [];
      form := EmptyCompanyForm;
    }

    /** `handleAddCompany`: the inserted row the backend returns is appended and the form reset. */
    method HandleAddCompany(inserted: Option<Company>) returns (request: CompanyForm)
      modifies this
      ensures request == old(form)
      ensures inserted.Some? ==> companies == old(companies) + [inserted.value] && form == EmptyCompanyForm
      ensures inserted.None? ==> companies == old(companies) && form == old(form)
    {
      request := form;
      if inserted.Some? {
        companies := companies + [inserted.value];
        form := EmptyCompanyForm;
      }
    }

    /** `deleteCompany`: a confirmed delete the backend accepted drops the companies with that id. */
    method DeleteCompany(id: string, confirmed: bool, remoteFailed: bool)
      modifies this`companies
      ensures !confirmed || remoteFailed ==> companies == old(companies)
      ensures confirmed && !remoteFailed ==> companies == DropCompany(old(companies), id)
      ensures confirmed && !remoteFailed ==> forall c :: c in companies ==> c.id != id
      ensures forall c :: c in old(companies) && c.id != id ==> c in companies
    {
      if confirmed && !remoteFailed {
        companies := DropCompany(companies, id);
      }
    }
  }
}
