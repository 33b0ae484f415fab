/** The `contracts_perm` table and its handlers. Six of its columns hold the
    public paths of uploaded files; on edit each keeps its stored value
    unless a new file is uploaded for it. */
module PermContracts {
  import opened Common
  import opened Numbers
  import opened Tables
  import opened SettingsStore

  /** The six upload fields of the form, one per path column. */
  datatype DocKind = SponsorId | SponsorPassport | EmployeePassport | EmployeeId | SignSponsor | SignOffice

  /** The six path columns. */
  datatype Docs = Docs(
    sponsorId: Option<string>,
    sponsorPassport: Option<string>,
    employeePassport: Option<string>,
    employeeId: Option<string>,
    signSponsor: Option<string>,
    signOffice: Option<string>)

  function Doc(d: Docs, k: DocKind): Option<string> {
    match k
    case SponsorId => d.sponsorId
    case SponsorPassport => d.sponsorPassport
    case EmployeePassport => d.employeePassport
    case EmployeeId => d.employeeId
    case SignSponsor => d.signSponsor
    case SignOffice => d.signOffice
  }

  /** Builds a `Docs` field by field. */
  function DocsFrom(pick: DocKind -> Option<string>): (d: Docs)
    ensures forall k :: Doc(d, k) == pick(k)
  {
    Docs(pick(SponsorId), pick(SponsorPassport), pick(EmployeePassport),
         pick(EmployeeId), pick(SignSponsor), pick(SignOffice))
  }

  /** The stored names of the files of one request, by field. */
  type Uploads = map<DocKind, string>

  /** `P(field)`: the public path of that field's upload, or NULL. */
  function UploadPath(up: Uploads, k: DocKind): (p: Option<string>)
    ensures p.Some? <==> k in up
    ensures k in up ==> p == Some("/uploads/" + up[k])
  {
    if k in up then Some("/uploads/" + up[k]) else None
  }

  datatype PermContract = PermContract(
    party1: string,
    sponsorName: Option<string>,
    sponsorPhone: Option<string>,
    sponsorNationality: Option<string>,
    sponsorAddress: Option<string>,
    employeeName: Option<string>,
    employeePhone: Option<string>,
    amount: Option<real>,
    dateFrom: Option<string>,
    dateTo: Option<string>,
    hasWarranty: bool,
    warrantyDuration: Option<string>,
    officeTerms: Option<string>,
    docs: Docs,
    createdBy: nat)

  /** The text fields of the create and edit forms. */
  datatype PermForm = PermForm(
    sponsorName: Option<string>,
    sponsorPhone: Option<string>,
    sponsorNationality: Option<string>,
    sponsorAddress: Option<string>,
    employeeName: Option<string>,
    employeePhone: Option<string>,
    amount: Option<string>,
    dateFrom: Option<string>,
    dateTo: Option<string>,
    hasWarranty: Option<string>,
    warrantyDuration: Option<string>,
    officeTerms: Option<string>)

  /** A row holds what the form sent: the ten text columns as given, the
      amount through `Number(... || 0)` and the warranty flag as
      `has_warranty ? 1 : 0`. */
  predicate HoldsForm(c: PermContract, f: PermForm) {
    && c.sponsorName == f.sponsorName && c.sponsorPhone == f.sponsorPhone
    && c.sponsorNationality == f.sponsorNationality && c.sponsorAddress == f.sponsorAddress
    && c.employeeName == f.employeeName && c.employeePhone == f.employeePhone
    && c.dateFrom == f.dateFrom && c.dateTo == f.dateTo
    && c.warrantyDuration == f.warrantyDuration && c.officeTerms == f.officeTerms
    && c.amount == NumberOrZero(f.amount) && (c.hasWarranty <==> Truthy(f.hasWarranty))
  }

  /** The form's columns over `base`; the first party, the paths and the
      creator are not form columns. */
  function WithForm(base: PermContract, f: PermForm): (c: PermContract)
    ensures c.party1 == base.party1 && c.docs == base.docs && c.createdBy == base.createdBy
    ensures HoldsForm(c, f)
  {
    base.(sponsorName := f.sponsorName, sponsorPhone := f.sponsorPhone,
          sponsorNationality := f.sponsorNationality, sponsorAddress := f.sponsorAddress,
          employeeName := f.employeeName, employeePhone := f.employeePhone,
          amount := NumberOrZero(f.amount), dateFrom := f.dateFrom, dateTo := f.dateTo,
          hasWarranty := Truthy(f.hasWarranty), warrantyDuration := f.warrantyDuration,
          officeTerms := f.officeTerms)
  }

  /** `P(field) || old.<column>` for every path column. */
  function MergeDocs(prev: Docs, up: Uploads): (d: Docs)
    ensures forall k :: Doc(d, k) == if k in up then Some("/uploads/" + up[k]) else Doc(prev, k)
  {
    DocsFrom(k => JsOr(UploadPath(up, k), Doc(prev, k)))
  }

  /** `POST /contracts/perm`: the agency is the first party and each path
      column holds its upload's path or NULL. */
  function CreatePerm(t: Table<PermContract>, f: PermForm, up: Uploads, userId: nat): (r: Table<PermContract>)
    requires Valid(t)
    ensures Valid(r) && Ids(r.rows) == Ids(t.rows) + {t.next}
    ensures Get(r.rows, t.next).Some?
    ensures var c := Get(r.rows, t.next).value;
            && c.party1 == Agency && c.createdBy == userId
            && HoldsForm(c, f)
            && forall k :: Doc(c.docs, k) == UploadPath(up, k)
    ensures forall other :: other != t.next ==> Get(r.rows, other) == Get(t.rows, other)
  {
    var blank := PermContract(Agency, None, None, None, None, None, None, None, None, None, false,
                              None, None, DocsFrom(k => UploadPath(up, k)), userId);
    var c := WithForm(blank, f);
    forall other ensures Get(Insert(t, c).rows, other) == if other == t.next then Some(c) else Get(t.rows, other) {
      GetAfterInsert(t, c, other);
    }
    Insert(t, c)
  }

  /** `PUT /contracts/perm/:id`: a missing id redirects without writing;
      otherwise the form's columns are written and each path column takes
      the new upload's path or keeps its stored value. */
  function UpdatePerm(t: Table<PermContract>, id: nat, f: PermForm, up: Uploads): (r: Change<Table<PermContract>>)
    requires Valid(t)
    ensures r.Applied? || r.Missing?
    ensures r.Missing? <==> Get(t.rows, id).None?
    ensures r.Applied? ==> Valid(r.value) && Ids(r.value.rows) == Ids(t.rows)
    ensures r.Applied? ==> forall other :: other != id ==> Get(r.value.rows, other) == Get(t.rows, other)
    ensures r.Applied? ==>
      var prev := Get(t.rows, id).value;
      var now := Get(r.value.rows, id).value;
      && Get(r.value.rows, id).Some?
      && now.party1 == prev.party1 && now.createdBy == prev.createdBy
      && HoldsForm(now, f)
      && forall k :: Doc(now.docs, k) == if k in up then Some("/uploads/" + up[k]) else Doc(prev.docs, k)
  {
    match Get(t.rows, id)
    case None => Missing
    case Some(prev) =>
      var c := WithForm(prev, f).(docs := MergeDocs(prev.docs, up));
      PutKeepsValid(t, id, c);
      forall other ensures Get(Put(t.rows, id, c), other) == if other == id then Some(c) else Get(t.rows, other) {
        GetAfterPut(t.rows, id, c, other);
      }
      Applied(t.(rows := Put(t.rows, id, c)))
  }

  // ---------------------------------------------------------------------
  // Lemmas

  /** An edit without uploads keeps every stored path. */
  lemma NoUploadKeepsDocs(prev: Docs)
    ensures MergeDocs(prev, map[]) == prev
  {
    var d := MergeDocs(prev, map[]);
    assert forall k :: Doc(d, k) == Doc(prev, k);
    assert d.sponsorId == Doc(d, SponsorId);
    assert d.sponsorPassport == Doc(d, SponsorPassport);
    assert d.employeePassport == Doc(d, EmployeePassport);
    assert d.employeeId == Doc(d, EmployeeId);
    assert d.signSponsor == Doc(d, SignSponsor);
    assert d.signOffice == Doc(d, SignOffice);
  }

  /** Saving the edit form again without uploads changes nothing more. */
  lemma ResaveIsIdempotent(t: Table<PermContract>, id: nat, f: PermForm, up: Uploads)
    requires Valid(t)
    ensures var once := UpdatePerm(t, id, f, up);
            once.Applied? ==> UpdatePerm(once.value, id, f, map[]) == once
  {
    var once := UpdatePerm(t, id, f, up);
    if once.Applied? {
      var prev := Get(t.rows, id).value;
      var c := WithForm(prev, f).(docs := MergeDocs(prev.docs, up));
      assert once.value.rows == Put(t.rows, id, c);
      GetAfterPut(t.rows, id, c, id);
      NoUploadKeepsDocs(c.docs);
      assert WithForm(c, f).(docs := MergeDocs(c.docs, map[])) == c;
      PutTwice(t.rows, id, c, c);
    }
  }

  /** Editing an id that does not exist leaves the table as it was. */
  lemma UpdateMissingChangesNothing(t: Table<PermContract>, id: nat, f: PermForm, up: Uploads)
    requires Valid(t) && id !in Ids(t.rows)
    ensures UpdatePerm(t, id, f, up).Or(t) == t
  {
  }
}
