/** The `contracts_temp` table and its handlers: create, edit, delete and
    the newest-first list. A drawn signature arrives as a data URL; the
    handler writes its bytes to a new file (not modelled) and stores that
    file's public path. */
module TempContracts {
  import opened Common
  import opened Numbers
  import opened Tables
  import opened SettingsStore

  datatype TempContract = TempContract(
    party1: string,
    employeeName: Option<string>,
    profession: Option<string>,
    salary: Option<real>,
    party3: Option<string>,
    terms: Option<string>,
    signaturePath: Option<string>,
    createdBy: nat)

  /** The body of the create and edit forms. */
  datatype TempForm = TempForm(
    employeeName: Option<string>,
    profession: Option<string>,
    salary: Option<string>,
    party3: Option<string>,
    terms: Option<string>,
    signatureData: Option<string>)

  const ImagePrefix := "data:image/"

  /** What the signature field amounts to. */
  datatype Signature =
    | Unsigned
      /** Saved under the new name, at this public path. */
    | Saved(path: string)
      /** A `data:image/` text without a comma: `split(',')[1]` is
          undefined and `Buffer.from` throws before anything is stored. */
    | Broken

  predicate HasComma(s: string) {
    ',' in s
  }

  /** The signature branch of both handlers, with `uuid` the name the file
      would be named after. */
  function SignatureOf(data: Option<string>, uuid: string): (g: Signature)
    ensures g.Saved? <==> Truthy(data) && StartsWith(data.value, ImagePrefix) && HasComma(data.value)
    ensures g.Saved? ==> g.path == "/uploads/" + uuid + ".png"
    ensures g.Broken? <==> Truthy(data) && StartsWith(data.value, ImagePrefix) && !HasComma(data.value)
  {
    if Truthy(data) && StartsWith(data.value, ImagePrefix) then
      if IndexOf(data.value, ',').Some? then Saved("/uploads/" + uuid + ".png") else Broken
    else
      Unsigned
  }

  /** The path to store: the new file's, or else `kept`. */
  function PathAfter(g: Signature, kept: Option<string>): Option<string> {
    match g
    case Saved(path) => Some(path)
    case _ => kept
  }

  /** `POST /contracts/temp`: the agency is always the first party, the
      salary goes through `Number(... || 0)`, and the signature path is the
      new file's or NULL. A broken data URL throws and nothing is inserted. */
  function CreateTemp(t: Table<TempContract>, f: TempForm, userId: nat, uuid: string): (r: Change<Table<TempContract>>)
    requires Valid(t)
    ensures r.Applied? || r.Thrown?
    ensures r.Thrown? <==> SignatureOf(f.signatureData, uuid).Broken?
    ensures r.Applied? ==> Valid(r.value) && Ids(r.value.rows) == Ids(t.rows) + {t.next}
    ensures r.Applied? ==>
      var c := Get(r.value.rows, t.next).value;
      && Get(r.value.rows, t.next).Some?
      && c.party1 == Agency && c.createdBy == userId
      && c.employeeName == f.employeeName && c.profession == f.profession
      && c.party3 == f.party3 && c.terms == f.terms
      && c.salary == NumberOrZero(f.salary)
      && (c.signaturePath.Some? <==> SignatureOf(f.signatureData, uuid).Saved?)
    ensures r.Applied? ==> forall other :: other != t.next ==> Get(r.value.rows, other) == Get(t.rows, other)
  {
    var sig := SignatureOf(f.signatureData, uuid);
    if sig.Broken? then Thrown
    else
      var path := PathAfter(sig, None);
      var c := TempContract(Agency, f.employeeName, f.profession, NumberOrZero(f.salary),
                            f.party3, f.terms, path, userId);
      forall other ensures Get(Insert(t, c).rows, other) == if other == t.next then Some(c) else Get(t.rows, other) {
        GetAfterInsert(t, c, other);
      }
      Applied(Insert(t, c))
  }

  /** `PUT /contracts/temp/:id`: the handler reads the stored row and its
      signature path before anything else, so a missing id throws; a new
      signature replaces the stored path, anything else keeps it. The first
      party and the creator are never changed. */
  function UpdateTemp(t: Table<TempContract>, id: nat, f: TempForm, uuid: string): (r: Change<Table<TempContract>>)
    requires Valid(t)
    ensures r.Applied? || r.Thrown?
    ensures r.Thrown? <==> Get(t.rows, id).None? || SignatureOf(f.signatureData, uuid).Broken?
    ensures r.Applied? ==> Valid(r.value) && Ids(r.value.rows) == Ids(t.rows)
    ensures r.Applied? ==> forall other :: other != id ==> Get(r.value.rows, other) == Get(t.rows, other)
    ensures r.Applied? ==>
      var prev := Get(t.rows, id).value;
      var now := Get(r.value.rows, id).value;
      && Get(r.value.rows, id).Some?
      && now.party1 == prev.party1 && now.createdBy == prev.createdBy
      && now.employeeName == f.employeeName && now.profession == f.profession
      && now.party3 == f.party3 && now.terms == f.terms
      && now.salary == NumberOrZero(f.salary)
  {
    match Get(t.rows, id)
    case None => Thrown
    case Some(prev) =>
      var sig := SignatureOf(f.signatureData, uuid);
      if sig.Broken? then Thrown
      else
        var path := PathAfter(sig, prev.signaturePath);
        var c := prev.(employeeName := f.employeeName, profession := f.profession,
                       salary := NumberOrZero(f.salary), party3 := f.party3, terms := f.terms,
                       signaturePath := path);
        PutKeepsValid(t, id, c);
        forall other ensures Get(Put(t.rows, id, c), other) == if other == id then Some(c) else Get(t.rows, other) {
          GetAfterPut(t.rows, id, c, other);
        }
        Applied(t.(rows := Put(t.rows, id, c)))
  }

  // ---------------------------------------------------------------------
  // Lemmas

  /** The signature path an edit leaves: the new file's exactly when the
      field holds a `data:image/` URL, the stored one otherwise. */
  lemma UpdateSignaturePath(t: Table<TempContract>, id: nat, f: TempForm, uuid: string)
    requires Valid(t) && Get(t.rows, id).Some? && !SignatureOf(f.signatureData, uuid).Broken?
    ensures UpdateTemp(t, id, f, uuid).Applied?
    ensures var now := Get(UpdateTemp(t, id, f, uuid).value.rows, id).value;
            now.signaturePath
            == if Truthy(f.signatureData) && StartsWith(f.signatureData.value, ImagePrefix)
               then Some("/uploads/" + uuid + ".png")
               else Get(t.rows, id).value.signaturePath
  {
  }

  /** On create the path is the new file's for a `data:image/` URL and NULL
      for anything else. */
  lemma CreateSignaturePath(t: Table<TempContract>, f: TempForm, userId: nat, uuid: string)
    requires Valid(t) && !SignatureOf(f.signatureData, uuid).Broken?
    ensures CreateTemp(t, f, userId, uuid).Applied?
    ensures var c := Get(CreateTemp(t, f, userId, uuid).value.rows, t.next).value;
            c.signaturePath
            == if Truthy(f.signatureData) && StartsWith(f.signatureData.value, ImagePrefix)
               then Some("/uploads/" + uuid + ".png")
               else None
  {
  }

  /** A text that is not a data URL never becomes a stored signature. */
  lemma OtherTextIsUnsigned(data: string, uuid: string)
    requires !StartsWith(data, ImagePrefix)
    ensures SignatureOf(Some(data), uuid) == Unsigned
  {
  }
}
