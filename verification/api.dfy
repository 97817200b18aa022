/** The mock service layer: registration and login validation, the catalog
    listing, and download-link lookup. Each call is a total function of its
    arguments. Registration and login resolve or reject, so they return a
    `Reply`; the listing and the lookup always resolve, so they return their
    value directly. The artificial delays are not part of the model. */
module Api {
  import opened Seqs
  import opened Catalog

  /** A call's outcome: the value it resolves with, or the message it rejects with. */
  datatype Reply<T> = Ok(value: T) | Err(message: string)

  const FieldsRequired := "All fields are required"
  const PasswordTooShort := "Password must be at least 6 characters"
  const RegistrationSuccessful := "Registration successful!"
  const CredentialsRequired := "Email and password are required"
  const InvalidCredentials := "Invalid credentials"
  const DummyToken := "dummy-token"
  const MinPasswordLength := 6

  datatype Registered = Registered(success: bool, message: string)
  datatype User = User(email: string)
  datatype Session = Session(token: string, user: User)

  /** The part of a record a download needs. */
  datatype DownloadLink = DownloadLink(id: int, name: string, downloadUrl: string, fileName: string)

  /** What registration accepts, stated as one condition: the length rule
      already implies a non-empty password. */
  predicate AcceptableRegistration(name: string, email: string, password: string) {
    name != [] && email != [] && |password| >= MinPasswordLength
  }

  /** Two checks in order: every field present, then the password length. */
  function Register(name: string, email: string, password: string): (r: Reply<Registered>)
    ensures r.Ok? <==> AcceptableRegistration(name, email, password)
    ensures r.Ok? ==> r.value.success && r.value.message == RegistrationSuccessful
    ensures r == Err(FieldsRequired) <==> name == [] || email == [] || password == []
    ensures r == Err(PasswordTooShort) <==> name != [] && email != [] && 0 < |password| < MinPasswordLength
  {
    if name == [] || email == [] || password == [] then Err(FieldsRequired)
    else if |password| < MinPasswordLength then Err(PasswordTooShort)
    else Ok(Registered(true, RegistrationSuccessful))
  }

  /** Any non-empty pair of credentials is accepted. The third branch repeats
      the source's fallback, which the first check makes unreachable. */
  function Login(email: string, password: string): (r: Reply<Session>)
    ensures r.Err? <==> email == [] || password == []
    ensures r.Err? ==> r.message == CredentialsRequired
    ensures r.Ok? ==> r.value.token == DummyToken && r.value.user.email == email
    ensures r != Err(InvalidCredentials)
  {
    if email == [] || password == [] then Err(CredentialsRequired)
    else if email != [] && password != [] then Ok(Session(DummyToken, User(email)))
    else Err(InvalidCredentials)
  }

  /** The whole catalog, in its stored order. */
  function GetAll(): (r: seq<Software>)
    ensures r == SoftwareData
    ensures |r| == 12
    ensures forall i :: 0 <= i < |r| ==> r[i].id == i + 1
    ensures DistinctIds(r)
  {
    CatalogNumbered();
    CatalogShape();
    SoftwareData
  }

  /** The test a record passes when its id was requested. */
  function RequestedBy(ids: seq<int>): Software -> bool {
    (sw: Software) => sw.id in ids
  }

  function ToLink(sw: Software): DownloadLink {
    DownloadLink(sw.id, sw.name, sw.downloadUrl, sw.fileName)
  }

  /** Each record projected to its link, in the same order. */
  function Links(records: seq<Software>): (links: seq<DownloadLink>)
    ensures |links| == |records|
    ensures forall i :: 0 <= i < |links| ==> links[i] == ToLink(records[i])
  {
    if records == [] then [] else [ToLink(records[0])] + Links(records[1..])
  }

  /** The records of `catalog` whose id was requested, in catalog order. */
  function SelectByIds(catalog: seq<Software>, ids: seq<int>): seq<Software> {
    Filter(RequestedBy(ids), catalog)
  }

  /** `l` is the link of a record of `catalog` whose id is among `ids`. */
  predicate LinkOfRequested(catalog: seq<Software>, ids: seq<int>, l: DownloadLink) {
    exists sw :: sw in catalog && sw.id in ids && l == ToLink(sw)
  }

  /** The download lookup against an arbitrary catalog: filter the catalog by
      the requested ids, then project each record to its link. */
  function DownloadFrom(catalog: seq<Software>, ids: seq<int>): (links: seq<DownloadLink>)
    ensures |links| <= |catalog|
    ensures forall i :: 0 <= i < |links| ==> links[i].id in ids
    ensures forall sw :: sw in catalog && sw.id in ids ==> ToLink(sw) in links
    ensures forall i :: 0 <= i < |links| ==> LinkOfRequested(catalog, ids, links[i])
  {
    var selected := SelectByIds(catalog, ids);
    assert forall sw :: sw in catalog && sw.id in ids ==> ToLink(sw) in Links(selected) by {
      forall sw | sw in catalog && sw.id in ids ensures ToLink(sw) in Links(selected) {
        assert RequestedBy(ids)(sw);
        var k :| 0 <= k < |selected| && selected[k] == sw;
        assert Links(selected)[k] == ToLink(sw);
      }
    }
    assert forall i :: 0 <= i < |selected| ==> selected[i] in catalog && RequestedBy(ids)(selected[i]);
    Links(selected)
  }

  /** `softwareAPI.download`: the lookup against the static catalog. */
  function Download(ids: seq<int>): (links: seq<DownloadLink>)
    ensures |links| <= |SoftwareData|
    ensures forall i :: 0 <= i < |links| ==> links[i].id in ids
    ensures forall sw :: sw in SoftwareData && sw.id in ids ==> ToLink(sw) in links
    ensures forall i :: 0 <= i < |links| ==> LinkOfRequested(SoftwareData, ids, links[i])
  {
    DownloadFrom(SoftwareData, ids)
  }

  /** The test a link passes when its id was requested. */
  function LinkRequestedBy(ids: seq<int>): DownloadLink -> bool {
    (l: DownloadLink) => l.id in ids
  }

  /** Filtering records and then projecting them to links is the same as
      projecting all records and filtering the links. */
  lemma {:induction false} LinksOfFilter(catalog: seq<Software>, ids: seq<int>)
    ensures Links(SelectByIds(catalog, ids)) == Filter(LinkRequestedBy(ids), Links(catalog))
  {
    if catalog != [] {
      var head, tail := catalog[0], catalog[1..];
      LinksOfFilter(tail, ids);
      assert Links(catalog)[1..] == Links(tail);
      if RequestedBy(ids)(head) {
        var rest := SelectByIds(tail, ids);
        assert ([head] + rest)[1..] == rest;
      }
    }
  }

  /** The links come in catalog order, whatever the request order: they form
      a subsequence of the catalog's own links. */
  lemma DownloadInCatalogOrder(catalog: seq<Software>, ids: seq<int>)
    ensures IsSubseq(DownloadFrom(catalog, ids), Links(catalog))
  {
    LinksOfFilter(catalog, ids);
  }

  /** Only the set of requested ids matters: reordering the request or
      repeating an id changes nothing. */
  lemma DownloadDependsOnIdSet(catalog: seq<Software>, ids: seq<int>, ids': seq<int>)
    requires forall x :: x in ids <==> x in ids'
    ensures DownloadFrom(catalog, ids) == DownloadFrom(catalog, ids')
  {
    FilterExtensional(RequestedBy(ids), RequestedBy(ids'), catalog);
  }

  /** Over a catalog with distinct ids, no link is returned twice, however
      often its id was requested. */
  lemma DownloadHasDistinctIds(catalog: seq<Software>, ids: seq<int>)
    requires DistinctIds(catalog)
    ensures forall i, j :: 0 <= i < j < |DownloadFrom(catalog, ids)| ==>
              DownloadFrom(catalog, ids)[i].id != DownloadFrom(catalog, ids)[j].id
  {
    var selected := SelectByIds(catalog, ids);
    SubseqKeepsDistinctIds(selected, catalog);
  }

  /** Requested ids with no record are dropped without an error; a request
      naming no catalog id yields no links. */
  lemma DownloadDropsUnknownIds(catalog: seq<Software>, ids: seq<int>)
    requires forall x :: x in ids ==> !HasId(catalog, x)
    ensures DownloadFrom(catalog, ids) == []
  {
    forall i | 0 <= i < |catalog| ensures !RequestedBy(ids)(catalog[i]) {
      assert HasId(catalog, catalog[i].id);
    }
    FilterEmptyIff(RequestedBy(ids), catalog);
  }

  /** A one-id request for a record of a catalog with distinct ids yields
      exactly that record's link. */
  lemma DownloadOneRecord(catalog: seq<Software>, sw: Software)
    requires DistinctIds(catalog) && sw in catalog
    ensures DownloadFrom(catalog, [sw.id]) == [ToLink(sw)]
  {
    var p := RequestedBy([sw.id]);
    var b :| 0 <= b < |catalog| && catalog[b] == sw;
    var front, back := catalog[..b], catalog[b + 1..];
    assert catalog == front + [sw] + back;
    forall i | 0 <= i < |front| ensures !p(front[i]) {
      assert front[i] == catalog[i];
    }
    forall i | 0 <= i < |back| ensures !p(back[i]) {
      assert back[i] == catalog[b + 1 + i];
    }
    FilterEmptyIff(p, front);
    FilterEmptyIff(p, back);
    FilterConcat(p, front + [sw], back);
    FilterConcat(p, front, [sw]);
    assert SelectByIds(catalog, [sw.id]) == [sw];
  }

  /** In a catalog numbered 1, 2, 3, ... in order, a request for ids 1 and 3
      yields the links of the first and third records. */
  lemma DownloadOneAndThree(c: seq<Software>)
    requires |c| >= 3 && forall i :: 0 <= i < |c| ==> c[i].id == i + 1
    ensures DownloadFrom(c, [1, 3]) == [ToLink(c[0]), ToLink(c[2])]
  {
    var p := RequestedBy([1, 3]);
    assert forall i :: 0 <= i < |c[3..]| ==> !p(c[3..][i]);
    FilterEmptyIff(p, c[3..]);
    assert c[1..][1..] == c[2..] && c[2..][1..] == c[3..];
    assert Filter(p, c[2..]) == [c[2]];
    assert Filter(p, c[1..]) == [c[2]];
    assert SelectByIds(c, [1, 3]) == [c[0], c[2]];
    var two := [c[0], c[2]];
    assert Links(two) == [ToLink(two[0]), ToLink(two[1])];
  }

  /** Requesting ids 1 and 3 yields exactly two links, the first and third
      records' ones. */
  lemma DownloadExampleOneThree()
    ensures Download([1, 3]) == [ToLink(SoftwareData[0]), ToLink(SoftwareData[2])]
  {
    CatalogNumbered();
    DownloadOneAndThree(SoftwareData);
  }

  /** The second of those links carries record 3's download URL and file name. */
  lemma DownloadExampleOneThreeFields()
    ensures Download([1, 3])[1].id == 3
    ensures Download([1, 3])[1].downloadUrl == "https://code.visualstudio.com/Download"
    ensures Download([1, 3])[1].fileName == "VSCodeUserSetup.exe"
  {
    DownloadExampleOneThree();
  }

  /** An id absent from the catalog yields no links and no error. */
  lemma DownloadExampleAbsent()
    ensures Download([999]) == []
  {
    CatalogShape();
    assert !HasId(SoftwareData, 999);
    DownloadDropsUnknownIds(SoftwareData, [999]);
  }

  /** Repeating and reordering requested ids changes nothing. */
  lemma DownloadExampleRepeated()
    ensures Download([3, 1, 3]) == Download([1, 3])
  {
    DownloadDependsOnIdSet(SoftwareData, [3, 1, 3], [1, 3]);
  }

  /** Registration and login on sample inputs. */
  lemma AuthExamples()
    ensures Register("", "a@b.com", "secret") == Err(FieldsRequired)
    ensures Register("A", "a@b.com", "12345") == Err(PasswordTooShort)
    ensures Register("A", "a@b.com", "123456").Ok?
    ensures Register("A", "a@b.com", "") == Err(FieldsRequired)
    ensures Login("a@b.com", "x") == Ok(Session(DummyToken, User("a@b.com")))
    ensures Login("", "x") == Err(CredentialsRequired)
  {
  }
}
