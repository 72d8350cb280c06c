/** Certificate authorities as a forest: creation under a parent, import, guarded deletion, and the chain walk. */
module CaHierarchy {
  import opened Common
  import opened Rows

  /** The text of a UUID: never empty, so an empty reference always means "no parent". */
  type Refid = s: string | |s| > 0 witness "0"

  /** `caref` is the parent's refid; empty for an authority without a parent. */
  datatype Ca = Ca(id: nat, refid: Refid, caref: string, hasKey: bool, serial: nat, pem: string)

  /** `caref` is the issuer's refid; empty while a request is unsigned, and for imported certificates. */
  datatype Cert = Cert(id: nat, caref: string, hasCsr: bool, signed: bool)

  datatype Db = Db(cas: seq<Ca>, certs: seq<Cert>)

  datatype Error =
    | ParentNotFound
    | ParentHasNoKey
    | DuplicateRefid
    | NotFound
    | UsedByCertificates(n: nat)
    | HasChildren(n: nat)
    | NoCsr
    | AlreadySigned

  const REFID: Ca -> string := (c: Ca) => c.refid
  const CA_ID: Ca -> nat := (c: Ca) => c.id
  const CERT_ID: Cert -> nat := (c: Cert) => c.id

  function CountCerts(certs: seq<Cert>, refid: string): nat {
    if certs == [] then 0
    else CountCerts(certs[..|certs| - 1], refid) + if certs[|certs| - 1].caref == refid then 1 else 0
  }

  function CountChildren(cas: seq<Ca>, refid: string): nat {
    if cas == [] then 0
    else CountChildren(cas[..|cas| - 1], refid) + if cas[|cas| - 1].caref == refid then 1 else 0
  }

  function NextCaId(cas: seq<Ca>): nat { if cas == [] then 1 else cas[|cas| - 1].id + 1 }

  function NextCertId(certs: seq<Cert>): nat { if certs == [] then 1 else certs[|certs| - 1].id + 1 }

  function Bumped(cas: seq<Ca>, i: nat): seq<Ca>
    requires i < |cas|
  {
    cas[i := cas[i].(serial := cas[i].serial + 1)]
  }

  // ---- operations ----

  /** Adding a row, under the unique index on refid. */
  function Insert(cas: seq<Ca>, refid: Refid, caref: string, hasKey: bool, pem: string): Result<seq<Ca>, Error> {
    if Find(REFID, cas, refid) < |cas| then Err(DuplicateRefid)
    else Ok(cas + [Ca(NextCaId(cas), refid, caref, hasKey, 0, pem)])
  }

  function CreateInternal(db: Db, refid: Refid, caref: string, pem: string): Result<Db, Error> {
    if caref == "" then
      match Insert(db.cas, refid, "", true, pem)
      case Err(e) => Err(e)
      case Ok(cas) => Ok(Db(cas, db.certs))
    else
      var p := Find(REFID, db.cas, caref);
      if p == |db.cas| then Err(ParentNotFound)
      else if !db.cas[p].hasKey then Err(ParentHasNoKey)
      else
        match Insert(Bumped(db.cas, p), refid, caref, true, pem)
        case Err(e) => Err(e)
        case Ok(cas) => Ok(Db(cas, db.certs))
  }

  function Import(db: Db, refid: Refid, hasKey: bool, pem: string): Result<Db, Error> {
    match Insert(db.cas, refid, "", hasKey, pem)
    case Err(e) => Err(e)
    case Ok(cas) => Ok(Db(cas, db.certs))
  }

  function DeleteCa(db: Db, id: nat): Result<Db, Error> {
    var i := Find(CA_ID, db.cas, id);
    if i == |db.cas| then Err(NotFound)
    else
      var certs, children := CountCerts(db.certs, db.cas[i].refid), CountChildren(db.cas, db.cas[i].refid);
      if certs > 0 then Err(UsedByCertificates(certs))
      else if children > 0 then Err(HasChildren(children))
      else Ok(Db(Without(db.cas, i), db.certs))
  }

  function IssueCert(db: Db, caref: string): Result<Db, Error> {
    var p := Find(REFID, db.cas, caref);
    if p == |db.cas| then Err(ParentNotFound)
    else if !db.cas[p].hasKey then Err(ParentHasNoKey)
    else Ok(Db(Bumped(db.cas, p), db.certs + [Cert(NextCertId(db.certs), caref, false, true)]))
  }

  /** sign_csr: the request is looked at before the issuer. */
  function SignCsr(db: Db, id: nat, caref: string): Result<Db, Error> {
    var i := Find(CERT_ID, db.certs, id);
    if i == |db.certs| then Err(NotFound)
    else if !db.certs[i].hasCsr then Err(NoCsr)
    else if db.certs[i].signed then Err(AlreadySigned)
    else
      var p := Find(REFID, db.cas, caref);
      if p == |db.cas| then Err(ParentNotFound)
      else if !db.cas[p].hasKey then Err(ParentHasNoKey)
      else Ok(Db(Bumped(db.cas, p), db.certs[i := db.certs[i].(caref := caref, signed := true)]))
  }

  /** A signing request, or an imported certificate: neither names an issuer. */
  function AddCert(db: Db, hasCsr: bool): Db {
    Db(db.cas, db.certs + [Cert(NextCertId(db.certs), "", hasCsr, !hasCsr)])
  }

  function DeleteCert(db: Db, id: nat): Result<Db, Error> {
    var i := Find(CERT_ID, db.certs, id);
    if i == |db.certs| then Err(NotFound) else Ok(Db(db.cas, Without(db.certs, i)))
  }

  datatype Event =
    | Create(refid: Refid, caref: string, pem: string)
    | Imported(refid: Refid, hasKey: bool, pem: string)
    | RemoveCa(id: nat)
    | Issue(caref: string)
    | Request
    | ImportedCert
    | Sign(id: nat, caref: string)
    | RemoveCert(id: nat)

  function Attempt(db: Db, e: Event): Result<Db, Error> {
    match e
    case Create(refid, caref, pem) => CreateInternal(db, refid, caref, pem)
    case Imported(refid, hasKey, pem) => Import(db, refid, hasKey, pem)
    case RemoveCa(id) => DeleteCa(db, id)
    case Issue(caref) => IssueCert(db, caref)
    case Request => Ok(AddCert(db, true))
    case ImportedCert => Ok(AddCert(db, false))
    case Sign(id, caref) => SignCsr(db, id, caref)
    case RemoveCert(id) => DeleteCert(db, id)
  }

  /** A refused operation leaves the tables alone. */
  function Step(db: Db, e: Event): Db {
    match Attempt(db, e) case Ok(next) => next case Err(_) => db
  }

  function Run(es: seq<Event>): Db {
    if es == [] then Db([], []) else Step(Run(es[..|es| - 1]), es[|es| - 1])
  }

  lemma {:induction false} FindInBumped(cas: seq<Ca>, p: nat, r: string)
    requires p < |cas|
    ensures Find(REFID, Bumped(cas, p), r) == Find(REFID, cas, r)
  {
    FindUpdated(REFID, cas, p, cas[p].(serial := cas[p].serial + 1), r);
  }

  // ---- the forest ----

  /** Row i has no parent, or its parent is an earlier row. */
  predicate Rooted(cas: seq<Ca>, i: nat)
    requires i < |cas|
  {
    cas[i].caref == "" || Find(REFID, cas, cas[i].caref) < i
  }

  ghost predicate Ascending(cas: seq<Ca>) {
    forall i, j :: 0 <= i < j < |cas| ==> cas[i].id < cas[j].id
  }

  ghost predicate Forest(cas: seq<Ca>) {
    && (forall i :: 0 <= i < |cas| ==> Rooted(cas, i) && Find(REFID, cas, cas[i].refid) == i)
    && Ascending(cas)
  }

  /** An issuer reference is empty or names a live authority. */
  predicate Refers(cas: seq<Ca>, caref: string) { caref == "" || Find(REFID, cas, caref) < |cas| }

  ghost predicate References(db: Db) {
    forall k :: 0 <= k < |db.certs| ==> Refers(db.cas, db.certs[k].caref)
  }

  ghost predicate DbOk(db: Db) {
    Forest(db.cas) && References(db)
  }

  lemma {:induction false} FindIs(cas: seq<Ca>, i: nat)
    requires Forest(cas) && i < |cas|
    ensures Find(REFID, cas, cas[i].refid) == i && Find(CA_ID, cas, cas[i].id) == i
  {
    FindPresent(CA_ID, cas, i);
  }

  lemma {:induction false} ForestBumped(cas: seq<Ca>, p: nat)
    requires Forest(cas) && p < |cas|
    ensures Forest(Bumped(cas, p))
  {
    var next := Bumped(cas, p);
    forall i | 0 <= i < |next| ensures Rooted(next, i) && Find(REFID, next, next[i].refid) == i {
      assert Rooted(cas, i);
      FindInBumped(cas, p, cas[i].caref);
      FindInBumped(cas, p, cas[i].refid);
    }
  }

  lemma {:induction false} RowExtended(cas: seq<Ca>, c: Ca, i: nat)
    requires Forest(cas) && i < |cas|
    ensures Rooted(cas + [c], i) && Find(REFID, cas + [c], cas[i].refid) == i
  {
    assert Rooted(cas, i) && Find(REFID, cas, cas[i].refid) == i;
    FindAppended(REFID, cas, c, cas[i].caref);
    FindAppended(REFID, cas, c, cas[i].refid);
  }

  lemma {:induction false} LastRow(cas: seq<Ca>, c: Ca)
    requires (c.caref == "" || Find(REFID, cas, c.caref) < |cas|) && Find(REFID, cas, c.refid) == |cas|
    ensures Rooted(cas + [c], |cas|) && Find(REFID, cas + [c], c.refid) == |cas|
  {
    FindAppended(REFID, cas, c, c.caref);
    FindAppended(REFID, cas, c, c.refid);
  }

  lemma {:induction false} AscendingExtended(cas: seq<Ca>, c: Ca)
    requires Ascending(cas) && c.id == NextCaId(cas)
    ensures Ascending(cas + [c])
  {
    var next := cas + [c];
    forall i, j | 0 <= i < j < |next| ensures next[i].id < next[j].id {
      if j == |cas| && i < |cas| - 1 {
        assert cas[i].id < cas[|cas| - 1].id;
      }
    }
  }

  lemma {:induction false} ForestExtended(cas: seq<Ca>, c: Ca)
    requires Forest(cas) && (c.caref == "" || Find(REFID, cas, c.caref) < |cas|)
    requires c.id == NextCaId(cas) && Find(REFID, cas, c.refid) == |cas|
    ensures Forest(cas + [c])
  {
    var next := cas + [c];
    LastRow(cas, c);
    AscendingExtended(cas, c);
    forall i | 0 <= i < |next| ensures Rooted(next, i) && Find(REFID, next, next[i].refid) == i {
      if i < |cas| {
        RowExtended(cas, c, i);
      }
    }
  }

  lemma {:induction false} RowWithout(cas: seq<Ca>, k: nat, at: nat)
    requires Forest(cas) && k < |cas| && at < |cas| && at != k && cas[at].caref != cas[k].refid
    ensures Rooted(Without(cas, k), if at < k then at else at - 1)
    ensures Find(REFID, Without(cas, k), cas[at].refid) == if at < k then at else at - 1
  {
    assert Rooted(cas, at) && Find(REFID, cas, cas[k].refid) == k && Find(REFID, cas, cas[at].refid) == at;
    FindWithout(REFID, cas, k, cas[at].caref);
    FindWithout(REFID, cas, k, cas[at].refid);
  }

  lemma {:induction false} AscendingWithout(cas: seq<Ca>, k: nat)
    requires Ascending(cas) && k < |cas|
    ensures Ascending(Without(cas, k))
  {
    var next := Without(cas, k);
    forall i, j | 0 <= i < j < |next| ensures next[i].id < next[j].id {
      assert next[i] == cas[if i < k then i else i + 1] && next[j] == cas[if j < k then j else j + 1];
    }
  }

  lemma {:induction false} ForestWithout(cas: seq<Ca>, k: nat)
    requires Forest(cas) && k < |cas|
    requires forall i :: 0 <= i < |cas| ==> cas[i].caref != cas[k].refid
    ensures Forest(Without(cas, k))
  {
    var next := Without(cas, k);
    AscendingWithout(cas, k);
    forall i | 0 <= i < |next| ensures Rooted(next, i) && Find(REFID, next, next[i].refid) == i {
      RowWithout(cas, k, if i < k then i else i + 1);
    }
  }

  // ---- what each operation keeps ----

  lemma {:induction false} NoChildren(cas: seq<Ca>, refid: string)
    ensures CountChildren(cas, refid) == 0 <==> forall i :: 0 <= i < |cas| ==> cas[i].caref != refid
  {
    if cas != [] {
      var init := cas[..|cas| - 1];
      NoChildren(init, refid);
      assert forall i :: 0 <= i < |init| ==> init[i] == cas[i];
    }
  }

  lemma {:induction false} NoCerts(certs: seq<Cert>, refid: string)
    ensures CountCerts(certs, refid) == 0 <==> forall i :: 0 <= i < |certs| ==> certs[i].caref != refid
  {
    if certs != [] {
      var init := certs[..|certs| - 1];
      NoCerts(init, refid);
      assert forall i :: 0 <= i < |init| ==> init[i] == certs[i];
    }
  }

  lemma {:induction false} InsertKeeps(cas: seq<Ca>, certs: seq<Cert>, refid: Refid, caref: string, hasKey: bool, pem: string)
    requires DbOk(Db(cas, certs)) && (caref == "" || Find(REFID, cas, caref) < |cas|)
    requires Insert(cas, refid, caref, hasKey, pem).Ok?
    ensures DbOk(Db(Insert(cas, refid, caref, hasKey, pem).value, certs))
  {
    var c := Ca(NextCaId(cas), refid, caref, hasKey, 0, pem);
    ForestExtended(cas, c);
    var db := Db(cas, certs);
    forall k | 0 <= k < |certs| ensures Refers(cas + [c], certs[k].caref) {
      assert Refers(db.cas, db.certs[k].caref);
      FindAppended(REFID, cas, c, certs[k].caref);
    }
  }

  lemma {:induction false} BumpKeeps(db: Db, p: nat)
    requires DbOk(db) && p < |db.cas|
    ensures DbOk(Db(Bumped(db.cas, p), db.certs))
  {
    ForestBumped(db.cas, p);
    forall k | 0 <= k < |db.certs| ensures Refers(Bumped(db.cas, p), db.certs[k].caref) {
      assert Refers(db.cas, db.certs[k].caref);
      FindInBumped(db.cas, p, db.certs[k].caref);
    }
  }

  lemma {:induction false} CreateKeeps(db: Db, refid: Refid, caref: string, pem: string)
    requires DbOk(db) && CreateInternal(db, refid, caref, pem).Ok?
    ensures DbOk(CreateInternal(db, refid, caref, pem).value)
  {
    if caref == "" {
      InsertKeeps(db.cas, db.certs, refid, "", true, pem);
    } else {
      var p := Find(REFID, db.cas, caref);
      BumpKeeps(db, p);
      FindInBumped(db.cas, p, caref);
      InsertKeeps(Bumped(db.cas, p), db.certs, refid, caref, true, pem);
    }
  }

  lemma {:induction false} DeleteCaKeeps(db: Db, id: nat)
    requires DbOk(db) && DeleteCa(db, id).Ok?
    ensures DbOk(DeleteCa(db, id).value)
  {
    var i := Find(CA_ID, db.cas, id);
    NoChildren(db.cas, db.cas[i].refid);
    NoCerts(db.certs, db.cas[i].refid);
    ForestWithout(db.cas, i);
    forall k | 0 <= k < |db.certs| ensures Refers(Without(db.cas, i), db.certs[k].caref) {
      assert Refers(db.cas, db.certs[k].caref);
      FindWithout(REFID, db.cas, i, db.certs[k].caref);
    }
  }

  lemma {:induction false} IssueKeeps(db: Db, caref: string)
    requires DbOk(db) && IssueCert(db, caref).Ok?
    ensures DbOk(IssueCert(db, caref).value)
  {
    var p := Find(REFID, db.cas, caref);
    BumpKeeps(db, p);
    FindInBumped(db.cas, p, caref);
  }

  lemma {:induction false} SignKeeps(db: Db, id: nat, caref: string)
    requires DbOk(db) && SignCsr(db, id, caref).Ok?
    ensures DbOk(SignCsr(db, id, caref).value)
  {
    var p := Find(REFID, db.cas, caref);
    BumpKeeps(db, p);
    FindInBumped(db.cas, p, caref);
    var bumped := Db(Bumped(db.cas, p), db.certs);
    var next := SignCsr(db, id, caref).value;
    forall k | 0 <= k < |next.certs| ensures Refers(next.cas, next.certs[k].caref) {
      assert Refers(bumped.cas, bumped.certs[k].caref);
    }
  }

  lemma {:induction false} DeleteCertKeeps(db: Db, id: nat)
    requires DbOk(db) && DeleteCert(db, id).Ok?
    ensures DbOk(DeleteCert(db, id).value)
  {
    var i := Find(CERT_ID, db.certs, id);
    var rest := Without(db.certs, i);
    forall k | 0 <= k < |rest| ensures Refers(db.cas, rest[k].caref) {
      assert rest[k] == db.certs[if k < i then k else k + 1];
    }
  }

  lemma {:induction false} StepKeeps(db: Db, e: Event)
    requires DbOk(db)
    ensures DbOk(Step(db, e))
  {
    if Attempt(db, e).Ok? {
      match e {
        case Create(refid, caref, pem) => CreateKeeps(db, refid, caref, pem);
        case Imported(refid, hasKey, pem) => InsertKeeps(db.cas, db.certs, refid, "", hasKey, pem);
        case RemoveCa(id) => DeleteCaKeeps(db, id);
        case Issue(caref) => IssueKeeps(db, caref);
        case Request =>
        case ImportedCert =>
        case Sign(id, caref) => SignKeeps(db, id, caref);
        case RemoveCert(id) => DeleteCertKeeps(db, id);
      }
    }
  }

  /** Over every run of creations, imports, issuances and deletions, references name live authorities and parent
      links form a forest. */
  lemma {:induction false} RunKeepsForest(es: seq<Event>)
    ensures Forest(Run(es).cas) && References(Run(es))
  {
    if es != [] {
      RunKeepsForest(es[..|es| - 1]);
      StepKeeps(Run(es[..|es| - 1]), es[|es| - 1]);
    }
  }

  /** A signed certificate keeps its row, issuer included, through every operation but its own deletion. */
  lemma {:induction false} SignedRowsAreKept(db: Db, e: Event, c: Cert)
    requires c in db.certs && c.signed && !(e.RemoveCert? && e.id == c.id)
    ensures c in Step(db, e).certs
  {
    var k :| 0 <= k < |db.certs| && db.certs[k] == c;
    match e {
      case RemoveCert(id) =>
        var i := Find(CERT_ID, db.certs, id);
        if i < |db.certs| { StaysIn(db.certs, i, c); }
      case Issue(_) =>
        if Attempt(db, e).Ok? { assert Step(db, e).certs[k] == c; }
      case Sign(id, caref) =>
        if Attempt(db, e).Ok? { assert Step(db, e).certs[k] == c; }
      case Request => assert Step(db, e).certs[k] == c;
      case ImportedCert => assert Step(db, e).certs[k] == c;
      case _ =>
    }
  }

  /** A deletion is refused exactly while something refers to the authority. */
  lemma {:induction false} DeleteCaIffUnused(db: Db, i: nat)
    requires Forest(db.cas) && i < |db.cas|
    ensures DeleteCa(db, db.cas[i].id).Ok? <==>
            && (forall k :: 0 <= k < |db.certs| ==> db.certs[k].caref != db.cas[i].refid)
            && (forall k :: 0 <= k < |db.cas| ==> db.cas[k].caref != db.cas[i].refid)
  {
    FindIs(db.cas, i);
    NoCerts(db.certs, db.cas[i].refid);
    NoChildren(db.cas, db.cas[i].refid);
  }

  // ---- chains ----

  /** Follow parents, each looked for among the rows before its child. */
  function Chain(cas: seq<Ca>, refid: string): seq<Ca>
    decreases |cas|
  {
    var i := Find(REFID, cas, refid);
    if i == |cas| then []
    else if cas[i].caref == "" then [cas[i]]
    else [cas[i]] + Chain(cas[..i], cas[i].caref)
  }

  /** From an authority to a root, each followed by its parent. */
  ghost predicate IsPathToRoot(chain: seq<Ca>, refid: string) {
    && chain != [] && chain[0].refid == refid && chain[|chain| - 1].caref == ""
    && (forall k :: 0 <= k < |chain| - 1 ==> chain[k].caref != "" && chain[k].caref == chain[k + 1].refid)
  }

  /** No authority twice: identifiers strictly decrease along the chain. */
  ghost predicate Descending(chain: seq<Ca>) {
    forall j, k :: 0 <= j < k < |chain| ==> chain[k].id < chain[j].id
  }

  lemma {:induction false} ForestPrefix(cas: seq<Ca>, i: nat)
    requires Forest(cas) && i < |cas|
    ensures Forest(cas[..i])
    ensures cas[i].caref != "" ==> Find(REFID, cas[..i], cas[i].caref) < i && Find(REFID, cas, cas[i].caref) == Find(REFID, cas[..i], cas[i].caref)
  {
    var init := cas[..i];
    forall k | 0 <= k < i ensures Rooted(init, k) && Find(REFID, init, init[k].refid) == k {
      assert Rooted(cas, k) && init[k] == cas[k];
      FindInPrefix(REFID, cas, i, cas[k].caref);
      FindInPrefix(REFID, cas, i, cas[k].refid);
    }
    assert Rooted(cas, i);
    FindInPrefix(REFID, cas, i, cas[i].caref);
  }

  /** What goes before a path to a root, when its last row names the path's first. */
  lemma {:induction false} PathExtended(c: Ca, rest: seq<Ca>)
    requires c.caref != "" && IsPathToRoot(rest, c.caref) && Descending(rest) && rest[0].id < c.id
    ensures IsPathToRoot([c] + rest, c.refid) && Descending([c] + rest)
  {
    var path := [c] + rest;
    forall k | 0 <= k < |path| - 1 ensures path[k].caref != "" && path[k].caref == path[k + 1].refid {
      if k > 0 {
        assert path[k] == rest[k - 1] && path[k + 1] == rest[k];
      }
    }
    forall j, k | 0 <= j < k < |path| ensures path[k].id < path[j].id {
      assert path[k] == rest[k - 1] && rest[k - 1].id <= rest[0].id;
      if j > 0 {
        assert path[j] == rest[j - 1];
      }
    }
  }

  lemma {:induction false} ChainHead(cas: seq<Ca>, refid: string)
    requires Find(REFID, cas, refid) < |cas|
    ensures Chain(cas, refid) != [] && Chain(cas, refid)[0] == cas[Find(REFID, cas, refid)]
  {
  }

  /** The chain of a live authority is a path to a root that repeats nothing. */
  lemma {:induction false} ChainIsPathToRoot(cas: seq<Ca>, refid: string)
    requires Forest(cas) && Find(REFID, cas, refid) < |cas|
    ensures IsPathToRoot(Chain(cas, refid), refid) && Descending(Chain(cas, refid))
    decreases |cas|
  {
    var i := Find(REFID, cas, refid);
    if cas[i].caref != "" {
      ForestPrefix(cas, i);
      ChainIsPathToRoot(cas[..i], cas[i].caref);
      ChainHead(cas[..i], cas[i].caref);
      PathExtended(cas[i], Chain(cas[..i], cas[i].caref));
    }
  }

  lemma {:induction false} ChainIsLive(cas: seq<Ca>, refid: string)
    ensures forall c :: c in Chain(cas, refid) ==> c in cas
    decreases |cas|
  {
    var i := Find(REFID, cas, refid);
    if i < |cas| && cas[i].caref != "" {
      ChainIsLive(cas[..i], cas[i].caref);
    }
  }

  /** Looking a parent up among earlier rows only, or among all rows, gives the same chain. */
  lemma {:induction false} ChainInPrefix(cas: seq<Ca>, i: nat, r: string)
    requires i <= |cas| && Find(REFID, cas, r) < i
    ensures Chain(cas[..i], r) == Chain(cas, r)
  {
    FindInPrefix(REFID, cas, i, r);
    assert cas[..i][..Find(REFID, cas, r)] == cas[..Find(REFID, cas, r)];
  }

  lemma {:induction false} ChainStep(cas: seq<Ca>, at: nat)
    requires Forest(cas) && at < |cas|
    ensures cas[at].caref == "" ==> Chain(cas, cas[at].refid) == [cas[at]]
    ensures cas[at].caref != "" ==> Find(REFID, cas, cas[at].caref) < at
    ensures cas[at].caref != "" ==> Chain(cas, cas[at].refid) == [cas[at]] + Chain(cas, cas[at].caref)
  {
    FindIs(cas, at);
    assert Rooted(cas, at);
    if cas[at].caref != "" {
      ChainInPrefix(cas, at, cas[at].caref);
    }
  }

  /** There is only one such path: any walk along parents to a root is the chain. */
  lemma {:induction false} PathToRootIsUnique(cas: seq<Ca>, refid: string, path: seq<Ca>)
    requires Forest(cas) && IsPathToRoot(path, refid)
    requires forall k :: 0 <= k < |path| ==> path[k] in cas
    ensures path == Chain(cas, refid)
    decreases |path|
  {
    assert path[0] in cas;
    var i :| 0 <= i < |cas| && cas[i] == path[0];
    ChainStep(cas, i);
    if |path| == 1 {
      assert path == [cas[i]];
    } else {
      assert path[0].caref == path[1].refid;
      PathTail(cas, path, refid);
      PathToRootIsUnique(cas, cas[i].caref, path[1..]);
      assert path == [cas[i]] + path[1..];
    }
  }

  lemma {:induction false} PathTail(cas: seq<Ca>, path: seq<Ca>, refid: string)
    requires IsPathToRoot(path, refid) && |path| > 1
    requires forall k :: 0 <= k < |path| ==> path[k] in cas
    ensures IsPathToRoot(path[1..], path[0].caref)
    ensures forall k :: 0 <= k < |path[1..]| ==> path[1..][k] in cas
  {
    var rest := path[1..];
    assert path[0].caref == path[1].refid;
    forall k | 0 <= k < |rest| - 1 ensures rest[k].caref != "" && rest[k].caref == rest[k + 1].refid {
      assert path[k + 1].caref == path[k + 2].refid;
    }
  }

  lemma {:induction false} PathAvoids(path: seq<Ca>, refid: string, k: Ca)
    requires IsPathToRoot(path, refid) && refid != k.refid
    requires forall m :: 0 <= m < |path| ==> path[m].caref != k.refid
    ensures forall m :: 0 <= m < |path| ==> path[m].refid != k.refid
  {
    forall m | 0 <= m < |path| ensures path[m].refid != k.refid {
      if m > 0 {
        assert path[m - 1].caref == path[m].refid;
      }
    }
  }

  lemma StaysIn<T>(s: seq<T>, k: nat, x: T)
    requires k < |s| && x in s && x != s[k]
    ensures x in Without(s, k)
  {
    var j :| 0 <= j < |s| && s[j] == x;
    assert Without(s, k)[if j < k then j else j - 1] == x;
  }

  /** Deleting an unreferenced authority leaves every other chain as it was. */
  lemma {:induction false} DeletionKeepsOtherChains(db: Db, id: nat, r: string)
    requires DbOk(db) && DeleteCa(db, id).Ok?
    requires Find(REFID, db.cas, r) < |db.cas| && r != db.cas[Find(CA_ID, db.cas, id)].refid
    ensures Chain(DeleteCa(db, id).value.cas, r) == Chain(db.cas, r)
  {
    var k := Find(CA_ID, db.cas, id);
    var path := Chain(db.cas, r);
    DeleteCaKeeps(db, id);
    ChainIsPathToRoot(db.cas, r);
    ChainIsLive(db.cas, r);
    NoChildren(db.cas, db.cas[k].refid);
    forall m | 0 <= m < |path| ensures path[m] in db.cas && path[m].caref != db.cas[k].refid {
      assert path[m] in path;
    }
    PathAvoids(path, r, db.cas[k]);
    forall m | 0 <= m < |path| ensures path[m] in Without(db.cas, k) {
      StaysIn(db.cas, k, path[m]);
    }
    PathToRootIsUnique(Without(db.cas, k), r, path);
  }

  function Pems(chain: seq<Ca>): seq<string> {
    if chain == [] then [] else [chain[0].pem] + Pems(chain[1..])
  }

  /** What the walk still has to collect when it stands on row `at`; nothing when there is no row. */
  function PemsFrom(cas: seq<Ca>, at: nat): seq<string> {
    if at >= |cas| then [] else Pems(Chain(cas, cas[at].refid))
  }

  lemma {:induction false} PemsFromStep(cas: seq<Ca>, at: nat)
    requires Forest(cas) && at < |cas|
    ensures cas[at].caref == "" ==> PemsFrom(cas, at) == [cas[at].pem]
    ensures cas[at].caref != "" ==> Find(REFID, cas, cas[at].caref) < at
    ensures cas[at].caref != "" ==> PemsFrom(cas, at) == [cas[at].pem] + PemsFrom(cas, Find(REFID, cas, cas[at].caref))
  {
    ChainStep(cas, at);
    var chain := Chain(cas, cas[at].refid);
    if cas[at].caref == "" {
      assert chain == [cas[at]] && chain[1..] == [] && Pems(chain[1..]) == [];
    } else {
      assert chain[1..] == Chain(cas, cas[at].caref);
    }
  }

  /** One turn of the walk: what was collected before, this row's certificate, and what is left. */
  lemma {:induction false} WalkStep(cas: seq<Ca>, at: nat, collected: seq<string>)
    requires Forest(cas) && at < |cas|
    ensures cas[at].caref == "" ==> collected + PemsFrom(cas, at) == collected + [cas[at].pem]
    ensures cas[at].caref != "" ==> Find(REFID, cas, cas[at].caref) < at
    ensures cas[at].caref != "" ==>
              collected + PemsFrom(cas, at) == collected + [cas[at].pem] + PemsFrom(cas, Find(REFID, cas, cas[at].caref))
  {
    PemsFromStep(cas, at);
    if cas[at].caref != "" {
      var rest := PemsFrom(cas, Find(REFID, cas, cas[at].caref));
      assert collected + ([cas[at].pem] + rest) == collected + [cas[at].pem] + rest;
    }
  }

  /** The loop of get_ca_chain: it ends because every parent sits in an earlier row, and collects the whole chain. */
  method WalkChain(cas: seq<Ca>, start: nat) returns (chain: seq<string>)
    requires Forest(cas)
    ensures chain == if start < |cas| then Pems(Chain(cas, cas[start].refid)) else []
  {
    chain := [];
    var at := start;
    while at < |cas|
      invariant 0 <= at
      invariant PemsFrom(cas, start) == chain + PemsFrom(cas, at)
      decreases if at < |cas| then at + 1 else 0
    {
      WalkStep(cas, at, chain);
      chain := chain + [cas[at].pem];
      if cas[at].caref == "" { break; }
      at := Find(REFID, cas, cas[at].caref);
    }
  }

  // ---- what creating, issuing and signing write ----

  /** Every row stays where it is, and only the serial of the authority `issuer` is one higher. */
  predicate Moved(before: seq<Ca>, after: seq<Ca>, issuer: string) {
    && |before| <= |after|
    && forall i :: 0 <= i < |before| ==>
         after[i] == if before[i].refid == issuer then before[i].(serial := before[i].serial + 1) else before[i]
  }

  /** The parent, with its serial moved, and what stands above it. */
  function WithSerialMoved(chain: seq<Ca>): seq<Ca> {
    if chain == [] then [] else [chain[0].(serial := chain[0].serial + 1)] + chain[1..]
  }

  lemma {:induction false} BumpedMoves(cas: seq<Ca>, p: nat)
    requires Forest(cas) && p < |cas|
    ensures Moved(cas, Bumped(cas, p), cas[p].refid)
  {
    forall i | 0 <= i < |cas|
      ensures Bumped(cas, p)[i] == if cas[i].refid == cas[p].refid then cas[i].(serial := cas[i].serial + 1) else cas[i]
    {
      assert Find(REFID, cas, cas[i].refid) == i && Find(REFID, cas, cas[p].refid) == p;
    }
  }

  lemma {:induction false} ChainOfBumped(cas: seq<Ca>, p: nat)
    requires Forest(cas) && p < |cas|
    ensures Chain(Bumped(cas, p), cas[p].refid) == WithSerialMoved(Chain(cas, cas[p].refid))
  {
    FindInBumped(cas, p, cas[p].refid);
    assert Find(REFID, cas, cas[p].refid) == p && Bumped(cas, p)[..p] == cas[..p];
  }

  lemma {:induction false} PemsOfBumped(cas: seq<Ca>, p: nat, r: string)
    requires p < |cas|
    ensures Pems(Chain(Bumped(cas, p), r)) == Pems(Chain(cas, r))
    decreases |cas|
  {
    FindInBumped(cas, p, r);
    var i := Find(REFID, cas, r);
    if i < |cas| && cas[i].caref != "" {
      var rest, bumped := Chain(cas[..i], cas[i].caref), Chain(Bumped(cas, p)[..i], cas[i].caref);
      if p < i {
        assert Bumped(cas, p)[..i] == Bumped(cas[..i], p);
        PemsOfBumped(cas[..i], p, cas[i].caref);
      } else {
        assert Bumped(cas, p)[..i] == cas[..i];
      }
      assert ([cas[i]] + rest)[1..] == rest && ([Bumped(cas, p)[i]] + bumped)[1..] == bumped;
    }
  }

  lemma {:induction false} ChainWithOneMore(cas: seq<Ca>, c: Ca, r: string)
    requires Find(REFID, cas, r) < |cas|
    ensures Chain(cas + [c], r) == Chain(cas, r)
  {
    FindAppended(REFID, cas, c, r);
    ChainInPrefix(cas + [c], |cas|, r);
    assert (cas + [c])[..|cas|] == cas;
  }

  lemma {:induction false} ChainOfNew(cas: seq<Ca>, c: Ca)
    requires Find(REFID, cas, c.refid) == |cas|
    ensures Chain(cas + [c], c.refid) == [c] + if c.caref == "" then [] else Chain(cas, c.caref)
  {
    FindAppended(REFID, cas, c, c.refid);
    assert (cas + [c])[..|cas|] == cas;
  }

  lemma {:induction false} NewRowLast(db: Db, refid: Refid, caref: string, pem: string)
    requires CreateInternal(db, refid, caref, pem).Ok?
    ensures var next := CreateInternal(db, refid, caref, pem).value; |next.cas| == |db.cas| + 1
    ensures var next, p := CreateInternal(db, refid, caref, pem).value, Find(REFID, db.cas, caref);
      next.cas == (if caref == "" then db.cas else if p < |db.cas| then Bumped(db.cas, p) else []) + [next.cas[|db.cas|]]
  {
  }

  lemma {:induction false} CreatedRows(db: Db, refid: Refid, caref: string, pem: string)
    requires DbOk(db) && CreateInternal(db, refid, caref, pem).Ok?
    ensures var next, n := CreateInternal(db, refid, caref, pem).value, |db.cas|;
      && next.certs == db.certs && |next.cas| == n + 1 && Moved(db.cas, next.cas, caref)
      && next.cas[n] == Ca(next.cas[n].id, refid, caref, true, 0, pem)
      && (caref != "" ==> Find(REFID, db.cas, caref) < n && db.cas[Find(REFID, db.cas, caref)].hasKey)
  {
    NewRowLast(db, refid, caref, pem);
    if caref != "" {
      BumpedMoves(db.cas, Find(REFID, db.cas, caref));
    }
  }

  lemma {:induction false} CreatedIsNew(db: Db, refid: Refid, caref: string, pem: string)
    requires DbOk(db) && CreateInternal(db, refid, caref, pem).Ok?
    ensures Find(REFID, db.cas, refid) == |db.cas|
    ensures caref != "" ==> Find(REFID, Bumped(db.cas, Find(REFID, db.cas, caref)), refid) == |db.cas|
  {
    if caref != "" {
      FindInBumped(db.cas, Find(REFID, db.cas, caref), refid);
    }
  }

  lemma {:induction false} CreatedChain(db: Db, refid: Refid, caref: string, pem: string)
    requires DbOk(db) && CreateInternal(db, refid, caref, pem).Ok?
    ensures var next := CreateInternal(db, refid, caref, pem).value;
      |next.cas| == |db.cas| + 1
      && Chain(next.cas, refid) == [next.cas[|db.cas|]] + if caref == "" then [] else WithSerialMoved(Chain(db.cas, caref))
  {
    var next, n := CreateInternal(db, refid, caref, pem).value, |db.cas|;
    NewRowLast(db, refid, caref, pem);
    CreatedIsNew(db, refid, caref, pem);
    if caref == "" {
      ChainOfNew(db.cas, next.cas[n]);
    } else {
      var p := Find(REFID, db.cas, caref);
      ChainOfNew(Bumped(db.cas, p), next.cas[n]);
      ChainOfBumped(db.cas, p);
    }
  }

  lemma {:induction false} CreatedIsLast(db: Db, refid: Refid, caref: string, pem: string)
    requires DbOk(db) && CreateInternal(db, refid, caref, pem).Ok?
    ensures |CreateInternal(db, refid, caref, pem).value.cas| == |db.cas| + 1
    ensures forall i :: 0 <= i < |db.cas| ==>
              db.cas[i].id < CreateInternal(db, refid, caref, pem).value.cas[|db.cas|].id && db.cas[i].refid != refid
  {
    var next, n := CreateInternal(db, refid, caref, pem).value.cas, |db.cas|;
    CreatedRows(db, refid, caref, pem);
    CreatedIsNew(db, refid, caref, pem);
    CreateKeeps(db, refid, caref, pem);
    forall i | 0 <= i < n ensures db.cas[i].id < next[n].id && db.cas[i].refid != refid {
      FindPresent(REFID, db.cas, i);
      assert next[i].id == db.cas[i].id && next[i].id < next[n].id;
    }
  }

  /** A new authority: its row, the rows there were, and its chain through its parent. */
  lemma {:induction false} CreatedUnderParent(db: Db, refid: Refid, caref: string, pem: string)
    requires DbOk(db) && CreateInternal(db, refid, caref, pem).Ok?
    ensures var next, n := CreateInternal(db, refid, caref, pem).value, |db.cas|;
      && next.certs == db.certs && |next.cas| == n + 1 && Moved(db.cas, next.cas, caref)
      && next.cas[n] == Ca(next.cas[n].id, refid, caref, true, 0, pem)
      && (forall i :: 0 <= i < n ==> db.cas[i].id < next.cas[n].id && db.cas[i].refid != refid)
      && (caref != "" ==> Find(REFID, db.cas, caref) < n && db.cas[Find(REFID, db.cas, caref)].hasKey)
      && Chain(next.cas, refid) == [next.cas[n]] + if caref == "" then [] else WithSerialMoved(Chain(db.cas, caref))
  {
    CreatedRows(db, refid, caref, pem);
    CreatedChain(db, refid, caref, pem);
    CreatedIsLast(db, refid, caref, pem);
  }

  lemma {:induction false} PemsOfNew(c: Ca, above: seq<Ca>)
    ensures Pems([c] + WithSerialMoved(above)) == [c.pem] + Pems(above)
    ensures Pems([c]) == [c.pem]
  {
    assert ([c] + WithSerialMoved(above))[1..] == WithSerialMoved(above) && [c][1..] == [];
    if above != [] {
      assert WithSerialMoved(above)[1..] == above[1..];
    }
  }

  lemma {:induction false} PemsWithOneMore(cas: seq<Ca>, p: nat, c: Ca, r: string)
    requires p < |cas| && Find(REFID, cas, r) < |cas|
    ensures Pems(Chain(Bumped(cas, p) + [c], r)) == Pems(Chain(cas, r))
  {
    FindInBumped(cas, p, r);
    PemsOfBumped(cas, p, r);
    ChainWithOneMore(Bumped(cas, p), c, r);
  }

  /** Every other chain holds the certificates it held. */
  lemma {:induction false} CreationKeepsOtherChains(db: Db, refid: Refid, caref: string, pem: string, r: string)
    requires DbOk(db) && CreateInternal(db, refid, caref, pem).Ok? && Find(REFID, db.cas, r) < |db.cas|
    ensures Pems(Chain(CreateInternal(db, refid, caref, pem).value.cas, r)) == Pems(Chain(db.cas, r))
  {
    var next := CreateInternal(db, refid, caref, pem).value;
    NewRowLast(db, refid, caref, pem);
    if caref == "" {
      ChainWithOneMore(db.cas, next.cas[|db.cas|], r);
    } else {
      PemsWithOneMore(db.cas, Find(REFID, db.cas, caref), next.cas[|db.cas|], r);
    }
  }

  /** A parent cannot be deleted under its new child. */
  lemma {:induction false} ChildHoldsParent(db: Db, refid: Refid, caref: string, pem: string)
    requires DbOk(db) && caref != "" && CreateInternal(db, refid, caref, pem).Ok?
    ensures var next := CreateInternal(db, refid, caref, pem).value;
            DeleteCa(next, db.cas[Find(REFID, db.cas, caref)].id).Err?
  {
    var next, n, p := CreateInternal(db, refid, caref, pem).value, |db.cas|, Find(REFID, db.cas, caref);
    CreatedUnderParent(db, refid, caref, pem);
    CreateKeeps(db, refid, caref, pem);
    assert next.cas[p].refid == caref && next.cas[n].caref == caref && next.cas[p].id == db.cas[p].id;
    DeleteCaIffUnused(next, p);
  }

  /** An issuer cannot be deleted under a certificate it issued. */
  lemma {:induction false} IssuedHoldsIssuer(db: Db, caref: string)
    requires DbOk(db) && IssueCert(db, caref).Ok?
    ensures DeleteCa(IssueCert(db, caref).value, db.cas[Find(REFID, db.cas, caref)].id).Err?
  {
    var next, p := IssueCert(db, caref).value, Find(REFID, db.cas, caref);
    IssueKeeps(db, caref);
    assert next.certs[|db.certs|].caref == next.cas[p].refid;
    DeleteCaIffUnused(next, p);
  }

  lemma {:induction false} InRows(cas: seq<Ca>, refid: string)
    requires Forest(cas)
    ensures Find(REFID, cas, refid) == |cas| <==> forall c :: c in cas ==> c.refid != refid
    ensures forall c :: c in cas && c.refid == refid ==> Find(REFID, cas, refid) < |cas| && cas[Find(REFID, cas, refid)] == c
  {
    forall c | c in cas && c.refid == refid ensures Find(REFID, cas, refid) < |cas| && cas[Find(REFID, cas, refid)] == c {
      var i :| 0 <= i < |cas| && cas[i] == c;
      assert Find(REFID, cas, cas[i].refid) == i;
    }
  }

  /** The refusals, read off the rows, and what a success leaves. */
  lemma {:induction false} CreateAnswers(db: Db, refid: Refid, caref: string, pem: string)
    requires DbOk(db)
    ensures var r := CreateInternal(db, refid, caref, pem);
      && (r == Err(ParentNotFound) <==> caref != "" && forall c :: c in db.cas ==> c.refid != caref)
      && (r == Err(ParentHasNoKey) <==> caref != "" && exists c :: c in db.cas && c.refid == caref && !c.hasKey)
      && (r.Err? ==> r.error == ParentNotFound || r.error == ParentHasNoKey || r.error == DuplicateRefid)
      && (r == Err(DuplicateRefid) ==> exists c :: c in db.cas && c.refid == refid)
      && (r.Ok? ==> forall c :: c in db.cas ==> c.refid != refid)
      && (r.Ok? ==>
            var next, n := r.value, |db.cas|;
            && next.certs == db.certs && |next.cas| == n + 1 && Moved(db.cas, next.cas, caref)
            && next.cas[n] == Ca(next.cas[n].id, refid, caref, true, 0, pem)
            && Chain(next.cas, refid) == [next.cas[n]] + (if caref == "" then [] else WithSerialMoved(Chain(db.cas, caref)))
            && Pems(Chain(next.cas, refid)) == [pem] + if caref == "" then [] else Pems(Chain(db.cas, caref)))
  {
    InRows(db.cas, caref);
    InRows(db.cas, refid);
    if caref != "" && Find(REFID, db.cas, caref) < |db.cas| {
      assert db.cas[Find(REFID, db.cas, caref)] in db.cas;
      FindInBumped(db.cas, Find(REFID, db.cas, caref), refid);
    }
    if CreateInternal(db, refid, caref, pem).Ok? {
      CreatedUnderParent(db, refid, caref, pem);
      PemsOfNew(CreateInternal(db, refid, caref, pem).value.cas[|db.cas|], Chain(db.cas, caref));
    }
  }

  lemma {:induction false} InCerts(certs: seq<Cert>, id: nat)
    ensures Find(CERT_ID, certs, id) < |certs| <==> exists c :: c in certs && c.id == id
  {
    if c :| c in certs && c.id == id {
      var k :| 0 <= k < |certs| && certs[k] == c;
      FindPresent(CERT_ID, certs, k);
    }
  }

  /** Whether an issuer serves, and what using it does to the rows. */
  lemma {:induction false} IssuerAnswers(cas: seq<Ca>, caref: string)
    requires Forest(cas)
    ensures var p := Find(REFID, cas, caref);
      && (p == |cas| <==> forall c :: c in cas ==> c.refid != caref)
      && (p < |cas| && cas[p].hasKey <==> exists c :: c in cas && c.refid == caref && c.hasKey)
      && (p < |cas| ==> Moved(cas, Bumped(cas, p), caref))
  {
    InRows(cas, caref);
    var p := Find(REFID, cas, caref);
    if p < |cas| {
      assert cas[p] in cas;
      BumpedMoves(cas, p);
    }
  }

  lemma {:induction false} InIds(cas: seq<Ca>, id: nat)
    requires Forest(cas)
    ensures Find(CA_ID, cas, id) == |cas| <==> forall c :: c in cas ==> c.id != id
    ensures forall c :: c in cas && c.id == id ==> Find(CA_ID, cas, id) < |cas| && cas[Find(CA_ID, cas, id)] == c
  {
    forall c | c in cas && c.id == id ensures Find(CA_ID, cas, id) < |cas| && cas[Find(CA_ID, cas, id)] == c {
      var i :| 0 <= i < |cas| && cas[i] == c;
      FindIs(cas, i);
    }
  }

  lemma {:induction false} WithoutMembers(cas: seq<Ca>, i: nat)
    requires Ascending(cas) && i < |cas|
    ensures forall c :: c in Without(cas, i) <==> c in cas && c.id != cas[i].id
  {
    forall c ensures c in Without(cas, i) <==> c in cas && c.id != cas[i].id {
      if c in cas && c.id != cas[i].id {
        StaysIn(cas, i, c);
      }
      if c in Without(cas, i) {
        var k :| 0 <= k < |Without(cas, i)| && Without(cas, i)[k] == c;
        assert c == cas[if k < i then k else k + 1];
      }
    }
  }

  /** Deletion, read off the rows. */
  function IssuedBy(certs: seq<Cert>, refid: string): set<nat> { set k | 0 <= k < |certs| && certs[k].caref == refid :: k }

  function ChildrenOf(cas: seq<Ca>, refid: string): set<nat> { set k | 0 <= k < |cas| && cas[k].caref == refid :: k }

  lemma {:induction false} CertsCounted(certs: seq<Cert>, refid: string)
    ensures CountCerts(certs, refid) == |IssuedBy(certs, refid)|
  {
    if certs != [] {
      var n := |certs| - 1;
      CertsCounted(certs[..n], refid);
      assert IssuedBy(certs, refid) == IssuedBy(certs[..n], refid) + if certs[n].caref == refid then {n} else {};
    }
  }

  lemma {:induction false} ChildrenCounted(cas: seq<Ca>, refid: string)
    ensures CountChildren(cas, refid) == |ChildrenOf(cas, refid)|
  {
    if cas != [] {
      var n := |cas| - 1;
      ChildrenCounted(cas[..n], refid);
      assert ChildrenOf(cas, refid) == ChildrenOf(cas[..n], refid) + if cas[n].caref == refid then {n} else {};
    }
  }

  /** The refusals of a deletion: certificates first, then child authorities, with their number. */
  predicate DeletionRefused(db: Db, c: Ca, error: Error) {
    var used, below := |IssuedBy(db.certs, c.refid)|, |ChildrenOf(db.cas, c.refid)|;
    if used > 0 then error == UsedByCertificates(used) else below > 0 && error == HasChildren(below)
  }

  lemma {:induction false} DeletionRefusals(db: Db, id: nat)
    ensures var i, r := Find(CA_ID, db.cas, id), DeleteCa(db, id);
      i < |db.cas| && r.Err? ==> DeletionRefused(db, db.cas[i], r.error)
  {
    var i := Find(CA_ID, db.cas, id);
    if i < |db.cas| {
      CertsCounted(db.certs, db.cas[i].refid);
      ChildrenCounted(db.cas, db.cas[i].refid);
    }
  }

  lemma {:induction false} DeletionAnswers(db: Db, id: nat)
    requires DbOk(db)
    ensures DeleteCa(db, id) == Err(NotFound) <==> forall c :: c in db.cas ==> c.id != id
    ensures DeleteCa(db, id).Ok? <==> exists c :: c in db.cas && c.id == id && Unused(db, c)
    ensures DeleteCa(db, id).Ok? ==> forall c :: c in DeleteCa(db, id).value.cas <==> c in db.cas && c.id != id
  {
    InIds(db.cas, id);
    var i := Find(CA_ID, db.cas, id);
    if i < |db.cas| {
      assert db.cas[i] in db.cas;
      DeleteCaIffUnused(db, i);
      WithoutMembers(db.cas, i);
      assert Unused(db, db.cas[i]) <==> DeleteCa(db, id).Ok?;
    }
  }

  /** No certificate and no authority refers to c. */
  ghost predicate Unused(db: Db, c: Ca) {
    (forall x :: x in db.certs ==> x.caref != c.refid) && forall x :: x in db.cas ==> x.caref != c.refid
  }

  // ---- the service ----

  class CaService {
    var cas: seq<Ca>
    var certs: seq<Cert>

    function State(): Db
      reads this
    {
      Db(cas, certs)
    }

    constructor ()
      ensures State() == Db([], []) && DbOk(State())
    {
      cas, certs := [], [];
    }

    /** The parent must exist and hold a key; its serial moves in the session, not yet in the table. */
    method LoadParent(caref: string) returns (rows: Result<seq<Ca>, Error>)
      requires caref != ""
      ensures rows == var p := Find(REFID, cas, caref);
                      if p == |cas| then Err(ParentNotFound)
                      else if !cas[p].hasKey then Err(ParentHasNoKey)
                      else Ok(Bumped(cas, p))
    {
      var parent := Find(REFID, cas, caref);
      if parent == |cas| { return Err(ParentNotFound); }
      if !cas[parent].hasKey { return Err(ParentHasNoKey); }
      rows := Ok(cas[parent := cas[parent].(serial := cas[parent].serial + 1)]);
    }

    /** create_internal_ca: the parent's serial moves and the row is added in one commit, or neither happens. */
    method CreateInternalCa(refid: Refid, caref: string, pem: string) returns (error: Option<Error>)
      requires DbOk(State())
      modifies this
      ensures State() == Step(old(State()), Create(refid, caref, pem)) && DbOk(State())
      ensures match Attempt(old(State()), Create(refid, caref, pem)) case Ok(_) => error == None case Err(e) => error == Some(e)
      ensures error.Some? ==> State() == old(State())
      ensures error == Some(ParentNotFound) <==> caref != "" && forall c :: c in old(cas) ==> c.refid != caref
      ensures error == Some(ParentHasNoKey) <==> caref != "" && exists c :: c in old(cas) && c.refid == caref && !c.hasKey
      ensures error.Some? && error.value != ParentNotFound && error.value != ParentHasNoKey ==>
                error.value == DuplicateRefid && exists c :: c in old(cas) && c.refid == refid
      ensures error.None? ==> forall c :: c in old(cas) ==> c.refid != refid
      ensures error.None? ==> certs == old(certs) && |cas| == |old(cas)| + 1 && Moved(old(cas), cas, caref)
      ensures error.None? ==> cas[|old(cas)|] == Ca(cas[|old(cas)|].id, refid, caref, true, 0, pem)
      ensures error.None? ==> Chain(cas, refid) == [cas[|old(cas)|]] + if caref == "" then [] else WithSerialMoved(Chain(old(cas), caref))
      ensures error.None? ==> Pems(Chain(cas, refid)) == [pem] + if caref == "" then [] else Pems(Chain(old(cas), caref))
    {
      CreateAnswers(State(), refid, caref, pem);
      StepKeeps(State(), Create(refid, caref, pem));
      if caref == "" {
        error := Commit(cas, refid, "", true, pem);
      } else {
        var session := LoadParent(caref);
        if session.Err? { return Some(session.error); }
        error := Commit(session.value, refid, caref, true, pem);
      }
    }

    /** Flush and commit a new row on top of the session's rows; the unique index on refid may refuse it. */
    method Commit(rows: seq<Ca>, refid: Refid, caref: string, hasKey: bool, pem: string) returns (error: Option<Error>)
      modifies `cas
      ensures match Insert(rows, refid, caref, hasKey, pem)
              case Ok(next) => cas == next && error == None
              case Err(e) => cas == old(cas) && error == Some(e)
    {
      if Find(REFID, rows, refid) < |rows| { return Some(DuplicateRefid); }
      cas := rows + [Ca(NextCaId(rows), refid, caref, hasKey, 0, pem)];
      error := None;
    }

    method ImportCa(refid: Refid, hasKey: bool, pem: string) returns (error: Option<Error>)
      requires DbOk(State())
      modifies this
      ensures State() == Step(old(State()), Imported(refid, hasKey, pem)) && DbOk(State())
      ensures error.None? <==> forall c :: c in old(cas) ==> c.refid != refid
      ensures error.Some? ==> error.value == DuplicateRefid
      ensures certs == old(certs) && (error.Some? ==> cas == old(cas))
      ensures error.None? ==> |cas| == |old(cas)| + 1 && cas[..|old(cas)|] == old(cas)
                              && cas[|old(cas)|] == Ca(cas[|old(cas)|].id, refid, "", hasKey, 0, pem)
    {
      InRows(cas, refid);
      StepKeeps(State(), Imported(refid, hasKey, pem));
      error := Commit(cas, refid, "", hasKey, pem);
    }

    /** delete_ca: certificates are counted before child authorities. */
    method DeleteCaRow(id: nat) returns (error: Option<Error>)
      requires DbOk(State())
      modifies this
      ensures State() == Step(old(State()), RemoveCa(id)) && DbOk(State())
      ensures match Attempt(old(State()), RemoveCa(id)) case Ok(_) => error == None case Err(e) => error == Some(e)
      ensures error == Some(NotFound) <==> forall c :: c in old(cas) ==> c.id != id
      ensures error.None? <==>
                exists c :: c in old(cas) && c.id == id && Unused(old(State()), c)
      ensures error.Some? && error.value != NotFound ==>
                var i := Find(CA_ID, old(cas), id); i < |old(cas)| && DeletionRefused(old(State()), old(cas)[i], error.value)
      ensures certs == old(certs) && (error.Some? ==> cas == old(cas))
      ensures error.None? ==> forall c :: c in cas <==> c in old(cas) && c.id != id
    {
      DeletionAnswers(State(), id);
      DeletionRefusals(State(), id);
      StepKeeps(State(), RemoveCa(id));
      var at := Find(CA_ID, cas, id);
      if at == |cas| { return Some(NotFound); }
      var used := CountCerts(certs, cas[at].refid);
      if used > 0 { return Some(UsedByCertificates(used)); }
      var children := CountChildren(cas, cas[at].refid);
      if children > 0 { return Some(HasChildren(children)); }
      cas := cas[..at] + cas[at + 1..];
      error := None;
    }

    /** create_certificate, as far as the authority row and the reference go. */
    method CreateCertificate(caref: string) returns (error: Option<Error>)
      requires DbOk(State())
      modifies this
      ensures State() == Step(old(State()), Issue(caref)) && DbOk(State())
      ensures match Attempt(old(State()), Issue(caref)) case Ok(_) => error == None case Err(e) => error == Some(e)
      ensures error.None? <==> exists c :: c in old(cas) && c.refid == caref && c.hasKey
      ensures error == Some(ParentNotFound) <==> forall c :: c in old(cas) ==> c.refid != caref
      ensures error.Some? ==> State() == old(State()) && (error.value == ParentNotFound || error.value == ParentHasNoKey)
      ensures error.None? ==> |cas| == |old(cas)| && Moved(old(cas), cas, caref)
      ensures error.None? ==> |certs| == |old(certs)| + 1 && certs[..|old(certs)|] == old(certs)
                              && certs[|old(certs)|].caref == caref && certs[|old(certs)|].signed && !certs[|old(certs)|].hasCsr
    {
      IssuerAnswers(cas, caref);
      StepKeeps(State(), Issue(caref));
      var at := Find(REFID, cas, caref);
      if at == |cas| { return Some(ParentNotFound); }
      if !cas[at].hasKey { return Some(ParentHasNoKey); }
      cas := cas[at := cas[at].(serial := cas[at].serial + 1)];
      certs := certs + [Cert(NextCertId(certs), caref, false, true)];
      error := None;
    }

    /** generate_csr, or import_certificate: a row without an issuer. */
    method AddCertificate(imported: bool)
      requires DbOk(State())
      modifies `certs
      ensures State() == Step(old(State()), if imported then ImportedCert else Request) && DbOk(State())
      ensures |certs| == |old(certs)| + 1 && certs[..|old(certs)|] == old(certs)
      ensures var c := certs[|old(certs)|]; c.caref == "" && c.hasCsr == !imported && c.signed == imported
    {
      StepKeeps(State(), if imported then ImportedCert else Request);
      certs := certs + [Cert(NextCertId(certs), "", !imported, imported)];
    }

    /** sign_csr */
    method SignRequest(id: nat, caref: string) returns (error: Option<Error>)
      requires DbOk(State())
      modifies this
      ensures State() == Step(old(State()), Sign(id, caref)) && DbOk(State())
      ensures match Attempt(old(State()), Sign(id, caref)) case Ok(_) => error == None case Err(e) => error == Some(e)
      ensures error.Some? ==> State() == old(State())
      ensures var i := Find(CERT_ID, old(certs), id);
              && (error == Some(NotFound) <==> i == |old(certs)|)
              && (error == Some(NoCsr) <==> i < |old(certs)| && !old(certs)[i].hasCsr)
              && (error == Some(AlreadySigned) <==> i < |old(certs)| && old(certs)[i].hasCsr && old(certs)[i].signed)
      ensures error == Some(ParentNotFound) ==> forall c :: c in old(cas) ==> c.refid != caref
      ensures error == Some(ParentHasNoKey) ==> exists c :: c in old(cas) && c.refid == caref
      ensures error.None? ==> (exists c :: c in old(cas) && c.refid == caref && c.hasKey) && |cas| == |old(cas)| && Moved(old(cas), cas, caref)
      ensures error.None? ==> var i := Find(CERT_ID, old(certs), id);
                i < |old(certs)| && old(certs)[i].hasCsr && !old(certs)[i].signed
                && certs == old(certs)[i := Cert(id, caref, true, true)]
    {
      IssuerAnswers(cas, caref);
      StepKeeps(State(), Sign(id, caref));
      var i := Find(CERT_ID, certs, id);
      if i == |certs| { return Some(NotFound); }
      if !certs[i].hasCsr { return Some(NoCsr); }
      if certs[i].signed { return Some(AlreadySigned); }
      var at := Find(REFID, cas, caref);
      if at == |cas| { return Some(ParentNotFound); }
      if !cas[at].hasKey { return Some(ParentHasNoKey); }
      certs := certs[i := certs[i].(caref := caref, signed := true)];
      cas := cas[at := cas[at].(serial := cas[at].serial + 1)];
      error := None;
    }

    method DeleteCertificate(id: nat) returns (found: bool)
      requires DbOk(State())
      modifies this
      ensures State() == Step(old(State()), RemoveCert(id)) && DbOk(State())
      ensures found <==> exists c :: c in old(certs) && c.id == id
      ensures cas == old(cas) && (!found ==> certs == old(certs))
      ensures found ==> exists i :: 0 <= i < |old(certs)| && old(certs)[i].id == id && certs == old(certs)[..i] + old(certs)[i + 1..]
    {
      StepKeeps(State(), RemoveCert(id));
      InCerts(certs, id);
      var at := Find(CERT_ID, certs, id);
      if at == |certs| { return false; }
      certs := certs[..at] + certs[at + 1..];
      found := true;
    }

    /** get_ca_chain */
    method GetCaChain(id: nat) returns (chain: seq<string>)
      requires Forest(cas)
      ensures chain == PemsFrom(cas, Find(CA_ID, cas, id))
    {
      chain := WalkChain(cas, Find(CA_ID, cas, id));
    }
  }
}
