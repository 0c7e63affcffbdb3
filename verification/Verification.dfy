/** User verification (db-service/src/schema/verification.rs). Each operation is one transaction: it works on
    copies of the tables and an error leaves them as they were. Notes, timestamps and the audit log are left out. */
module Verification {
  import opened Options

  datatype Status = Unverified | Pending | Approved | Rejected | Expired | Suspended

  datatype Stage = IdentityBasic | DocumentUpload | LivenessCheck | AddressVerification | RiskAssessment | Completed

  datatype DocumentType = Passport | DriversLicense | NationalId | Selfie | ResidencePermit | ProofOfAddress

  datatype DocumentStatus = DocPending | DocApproved | DocRejected | DocExpired

  datatype User = User(status: Status, stage: Stage, verified: bool)

  datatype Document = Document(userId: nat, docType: DocumentType, status: DocumentStatus)

  datatype Tables = Tables(users: map<nat, User>, documents: seq<Document>)

  datatype Error = RowNotFound | WrongStatus | WrongStage | TermsNotAgreed | InvalidDocumentType | NoValidTypes

  datatype Result = Ok | Err(error: Error)

  const NEW_USER := User(Unverified, IdentityBasic, false)

  function ParseType(name: string): Option<DocumentType> {
    if name == "passport" then Some(Passport)
    else if name == "drivers_license" then Some(DriversLicense)
    else if name == "national_id" then Some(NationalId)
    else if name == "selfie" then Some(Selfie)
    else if name == "residence_permit" then Some(ResidencePermit)
    else if name == "proof_of_address" then Some(ProofOfAddress)
    else None
  }

  /** Lower case for the letters document types are made of. */
  function Lower(name: string): string {
    seq(|name|, i requires 0 <= i < |name| => if 'A' <= name[i] <= 'Z' then (name[i] as int + 32) as char else name[i])
  }

  function ParseAll(names: seq<string>): seq<DocumentType> {
    if names == [] then []
    else
      (match ParseType(Lower(names[0])) case Some(t) => [t] case None => []) + ParseAll(names[1..])
  }

  function TypesIn(types: seq<DocumentType>): set<DocumentType> {
    set x | x in types
  }

  predicate AllParse(names: seq<string>) { forall n :: n in names ==> ParseType(n).Some? }

  function NewDocuments(u: nat, names: seq<string>): seq<Document> {
    if names == [] then []
    else
      (match ParseType(names[0]) case Some(t) => [Document(u, t, DocPending)] case None => []) +
      NewDocuments(u, names[1..])
  }

  /** The user's documents of the given types, or all of them, get a status. */
  function Marked(docs: seq<Document>, u: nat, types: set<DocumentType>, status: DocumentStatus): seq<Document> {
    seq(|docs|, i requires 0 <= i < |docs| =>
      if docs[i].userId == u && docs[i].docType in types then docs[i].(status := status) else docs[i])
  }

  const ALL_TYPES: set<DocumentType> := {Passport, DriversLicense, NationalId, Selfie, ResidencePermit, ProofOfAddress}

  datatype Op =
    | CreateUser(u: nat)
    | Apply(u: nat)
    | Submit(u: nat, types: seq<string>, agreed: bool)
    | Approve(u: nat)
    | Reject(u: nat)
    | RequestRevision(u: nat, types: seq<string>)
    | Suspend(u: nat)
    | Reinstate(u: nat)

  /** Whether an operation goes through, and if not, which error it reports. */
  function Verdict(t: Tables, op: Op): Result {
    if op.CreateUser? then (if op.u in t.users then Err(RowNotFound) else Ok)
    else if op.u !in t.users then Err(RowNotFound)
    else
      var user := t.users[op.u];
      match op
      case Apply(_) => if user.status != Unverified then Err(RowNotFound) else Ok
      case Submit(_, types, agreed) =>
        if user.status != Unverified then Err(WrongStatus)
        else if user.stage != DocumentUpload then Err(WrongStage)
        else if !agreed then Err(TermsNotAgreed)
        else if !AllParse(types) then Err(InvalidDocumentType)
        else Ok
      case Approve(_) => if user.status != Pending then Err(WrongStatus) else Ok
      case Reject(_) => Ok
      case RequestRevision(_, types) => if ParseAll(types) == [] then Err(NoValidTypes) else Ok
      case Suspend(_) => if user.status != Approved then Err(WrongStatus) else Ok
      case Reinstate(_) => if user.status != Suspended then Err(WrongStatus) else Ok
      case CreateUser(_) => Ok
  }

  /** The effect of an operation that goes through. */
  function Effect(t: Tables, op: Op): Tables
    requires Verdict(t, op).Ok?
  {
    if op.CreateUser? then t.(users := t.users[op.u := NEW_USER]) else
      var user := t.users[op.u];
      match op
      case Apply(u) => t.(users := t.users[u := user.(stage := DocumentUpload)])
      case Submit(u, types, _) =>
        Tables(t.users[u := user.(status := Pending, stage := Completed)], t.documents + NewDocuments(u, types))
      case Approve(u) =>
        Tables(t.users[u := user.(status := Approved, verified := true)],
               Marked(t.documents, u, ALL_TYPES, DocApproved))
      case Reject(u) =>
        Tables(t.users[u := User(Rejected, IdentityBasic, false)], Marked(t.documents, u, ALL_TYPES, DocRejected))
      case RequestRevision(u, types) =>
        Tables(t.users[u := user.(status := Unverified, stage := DocumentUpload)],
               Marked(t.documents, u, TypesIn(ParseAll(types)), DocRejected))
      case Suspend(u) => t.(users := t.users[u := user.(status := Suspended, verified := false)])
      case Reinstate(u) => t.(users := t.users[u := user.(status := Approved, verified := true)])
      case CreateUser(_) => t
  }

  function Step(t: Tables, op: Op): Tables {
    if Verdict(t, op).Ok? then Effect(t, op) else t
  }

  class VerificationService {
    var users: map<nat, User>
    var documents: seq<Document>

    constructor ()
      ensures View() == Tables(map[], [])
    {
      users, documents := map[], [];
    }

    function View(): Tables
      reads this
    {
      Tables(users, documents)
    }

    method CreateNewUser(u: nat) returns (r: Result)
      modifies this
      ensures r == Verdict(old(View()), CreateUser(u)) && View() == Step(old(View()), CreateUser(u))
    {
      if u in users {
        return Err(RowNotFound);
      }
      users := users[u := User(Unverified, IdentityBasic, false)];
      return Ok;
    }

    method ApplyForVerification(u: nat) returns (r: Result)
      modifies this
      ensures r == Verdict(old(View()), Apply(u)) && View() == Step(old(View()), Apply(u))
    {
      if u !in users || users[u].status != Unverified {
        return Err(RowNotFound);
      }
      users := users[u := users[u].(status := Unverified, stage := DocumentUpload)];
      return Ok;
    }

    /** Inserts one pending document per name; a name that is no document type undoes the whole transaction. */
    method SubmitVerification(u: nat, types: seq<string>, agreed: bool) returns (r: Result)
      modifies this
      ensures r == Verdict(old(View()), Submit(u, types, agreed))
      ensures View() == Step(old(View()), Submit(u, types, agreed))
    {
      if u !in users {
        return Err(RowNotFound);
      }
      if users[u].status != Unverified {
        return Err(WrongStatus);
      }
      if users[u].stage != DocumentUpload {
        return Err(WrongStage);
      }
      if !agreed {
        return Err(TermsNotAgreed);
      }
      var docs := documents;
      for i := 0 to |types|
        invariant View() == old(View())
        invariant AllParse(types[..i])
        invariant docs + NewDocuments(u, types[i..]) == documents + NewDocuments(u, types)
      {
        assert types[i] in types && types[i..][0] == types[i] && types[i..][1..] == types[i + 1..];
        match ParseType(types[i]) {
          case Some(t) =>
            docs := docs + [Document(u, t, DocPending)];
            assert types[..i + 1] == types[..i] + [types[i]];
          case None => return Err(InvalidDocumentType);
        }
      }
      assert types[..|types|] == types;
      documents := docs;
      users := users[u := users[u].(status := Pending, stage := Completed)];
      return Ok;
    }

    method ApproveUser(u: nat) returns (r: Result)
      modifies this
      ensures r == Verdict(old(View()), Approve(u)) && View() == Step(old(View()), Approve(u))
    {
      if u !in users {
        return Err(RowNotFound);
      }
      if users[u].status != Pending {
        return Err(WrongStatus);
      }
      users := users[u := users[u].(status := Approved, verified := true)];
      documents := Marked(documents, u, ALL_TYPES, DocApproved);
      return Ok;
    }

    /** Rejecting looks at nothing but that the user exists. */
    method RejectUser(u: nat) returns (r: Result)
      modifies this
      ensures r == Verdict(old(View()), Reject(u)) && View() == Step(old(View()), Reject(u))
    {
      if u !in users {
        return Err(RowNotFound);
      }
      users := users[u := users[u].(status := Rejected, stage := IdentityBasic, verified := false)];
      documents := Marked(documents, u, ALL_TYPES, DocRejected);
      return Ok;
    }

    /** The user row is updated first; without a valid type that update is rolled back. The verified mark is
        not touched. */
    method RequestRevisionOf(u: nat, types: seq<string>) returns (r: Result)
      modifies this
      ensures r == Verdict(old(View()), RequestRevision(u, types))
      ensures View() == Step(old(View()), RequestRevision(u, types))
    {
      if u !in users {
        return Err(RowNotFound);
      }
      var revised := users[u := users[u].(status := Unverified, stage := DocumentUpload)];
      var rejected := ParseAll(types);
      if rejected == [] {
        return Err(NoValidTypes);
      }
      var docs := documents;
      MarkedNone(documents, u);
      for i := 0 to |rejected|
        invariant View() == old(View())
        invariant docs == Marked(documents, u, TypesIn(rejected[..i]), DocRejected)
      {
        docs := Marked(docs, u, {rejected[i]}, DocRejected);
        assert rejected[..i + 1] == rejected[..i] + [rejected[i]];
        MarkedTwice(documents, u, TypesIn(rejected[..i]), rejected[i]);
        assert TypesIn(rejected[..i]) + {rejected[i]} == TypesIn(rejected[..i + 1]);
      }
      assert rejected[..|rejected|] == rejected;
      users, documents := revised, docs;
      return Ok;
    }

    method SuspendUser(u: nat) returns (r: Result)
      modifies this
      ensures r == Verdict(old(View()), Suspend(u)) && View() == Step(old(View()), Suspend(u))
    {
      if u !in users {
        return Err(RowNotFound);
      }
      if users[u].status != Approved {
        return Err(WrongStatus);
      }
      users := users[u := users[u].(status := Suspended, verified := false)];
      return Ok;
    }

    method ReinstateUser(u: nat) returns (r: Result)
      modifies this
      ensures r == Verdict(old(View()), Reinstate(u)) && View() == Step(old(View()), Reinstate(u))
    {
      if u !in users {
        return Err(RowNotFound);
      }
      if users[u].status != Suspended {
        return Err(WrongStatus);
      }
      users := users[u := users[u].(status := Approved, verified := true)];
      return Ok;
    }
  }

  lemma MarkedNone(docs: seq<Document>, u: nat)
    ensures Marked(docs, u, {}, DocRejected) == docs
  {
  }

  lemma MarkedTwice(docs: seq<Document>, u: nat, types: set<DocumentType>, t: DocumentType)
    ensures Marked(Marked(docs, u, types, DocRejected), u, {t}, DocRejected) ==
              Marked(docs, u, types + {t}, DocRejected)
  {
  }

  // ----- invariants of every run -----

  function Run(t: Tables, ops: seq<Op>): Tables
    decreases |ops|
  {
    if ops == [] then t else Run(Step(t, ops[0]), ops[1..])
  }

  ghost predicate AllDocs(t: Tables, u: nat, status: DocumentStatus) {
    forall d :: d in t.documents && d.userId == u ==> d.status == status
  }

  predicate InReview(s: Status) { s == Pending || s == Approved || s == Suspended }

  ghost predicate Consistent(t: Tables, u: nat)
    requires u in t.users
  {
    var user := t.users[u];
    && (InReview(user.status) ==> user.stage == Completed)
    && (user.status == Unverified ==> user.stage == IdentityBasic || user.stage == DocumentUpload)
    && (user.status == Rejected ==> user.stage == IdentityBasic && !user.verified && AllDocs(t, u, DocRejected))
    && (user.status == Approved ==> user.verified && AllDocs(t, u, DocApproved))
    && (user.status == Suspended ==> !user.verified && AllDocs(t, u, DocApproved))
    && user.status != Expired
  }

  ghost predicate AllConsistent(t: Tables) { forall u :: u in t.users ==> Consistent(t, u) }

  lemma EveryTypeListed(t: DocumentType)
    ensures t in ALL_TYPES
  {
    match t
    case Passport =>
    case DriversLicense =>
    case NationalId =>
    case Selfie =>
    case ResidencePermit =>
    case ProofOfAddress =>
  }

  lemma MarkedAll(docs: seq<Document>, u: nat, types: set<DocumentType>, status: DocumentStatus, d: Document)
    requires d in Marked(docs, u, types, status)
    ensures d in docs || (d.userId == u && d.docType in types && d.status == status)
    ensures types == ALL_TYPES && d.userId == u ==> d.status == status
    ensures d.userId != u ==> d in docs
  {
    var i :| 0 <= i < |docs| && Marked(docs, u, types, status)[i] == d;
    assert docs[i] in docs;
    EveryTypeListed(docs[i].docType);
  }

  lemma {:induction false} NewDocumentsOf(u: nat, names: seq<string>, d: Document)
    requires d in NewDocuments(u, names)
    ensures d.userId == u && d.status == DocPending
  {
    if d in NewDocuments(u, names[1..]) {
      NewDocumentsOf(u, names[1..], d);
    }
  }

  /** An operation touches the documents of its own user only. */
  lemma OthersDocsStay(t: Tables, op: Op, u: nat)
    requires u != op.u
    ensures forall d :: d in Step(t, op).documents && d.userId == u ==> d in t.documents
  {
    forall d | d in Step(t, op).documents && d.userId == u
      ensures d in t.documents
    {
      if Verdict(t, op).Ok? {
        match op
        case Submit(_, types, _) =>
          if d in NewDocuments(op.u, types) {
            NewDocumentsOf(op.u, types, d);
          }
        case Approve(_) => MarkedAll(t.documents, op.u, ALL_TYPES, DocApproved, d);
        case Reject(_) => MarkedAll(t.documents, op.u, ALL_TYPES, DocRejected, d);
        case RequestRevision(_, types) => MarkedAll(t.documents, op.u, TypesIn(ParseAll(types)), DocRejected, d);
        case _ =>
      }
    }
  }

  lemma StepKeepsConsistent(t: Tables, op: Op)
    requires AllConsistent(t)
    ensures AllConsistent(Step(t, op))
  {
    var after := Step(t, op);
    forall u | u in after.users
      ensures Consistent(after, u)
    {
      if u != op.u {
        OthersDocsStay(t, op, u);
        assert u in t.users && Consistent(t, u);
      } else if Verdict(t, op).Ok? {
        assert op.CreateUser? || Consistent(t, u);
        forall d | d in after.documents && d.userId == u
          ensures op.Approve? ==> d.status == DocApproved
          ensures op.Reject? ==> d.status == DocRejected
        {
          if op.Approve? { MarkedAll(t.documents, u, ALL_TYPES, DocApproved, d); }
          if op.Reject? { MarkedAll(t.documents, u, ALL_TYPES, DocRejected, d); }
        }
      }
    }
  }

  /** In every run from any consistent tables, the empty ones included, status, stage, verified mark and documents
      of every user fit together. */
  lemma {:induction false} RunKeepsConsistent(t: Tables, ops: seq<Op>)
    requires AllConsistent(t)
    ensures AllConsistent(Run(t, ops))
    decreases |ops|
  {
    if ops != [] {
      StepKeepsConsistent(t, ops[0]);
      RunKeepsConsistent(Step(t, ops[0]), ops[1..]);
    }
  }

  /** Of the user's submissions, rejections and revision requests that went through, the last is a submission. */
  function SubmittedLast(t: Tables, ops: seq<Op>, u: nat, before: bool): bool
    decreases |ops|
  {
    if ops == [] then before else
      var op := ops[0];
      var now :=
        if op.u != u || Verdict(t, op).Err? then before
        else if op.Submit? then true
        else if op.Reject? || op.RequestRevision? then false
        else before;
      SubmittedLast(Step(t, op), ops[1..], u, now)
  }

  predicate Reviewed(t: Tables, u: nat) { u in t.users && InReview(t.users[u].status) }

  lemma {:induction false} InReviewExactly(t: Tables, ops: seq<Op>, u: nat, before: bool)
    requires Reviewed(t, u) <==> before
    ensures Reviewed(Run(t, ops), u) <==> SubmittedLast(t, ops, u, before)
    decreases |ops|
  {
    if ops != [] {
      var op := ops[0];
      var now :=
        if op.u != u || Verdict(t, op).Err? then before
        else if op.Submit? then true
        else if op.Reject? || op.RequestRevision? then false
        else before;
      InReviewExactly(Step(t, op), ops[1..], u, now);
    }
  }

  /** From empty tables a user is pending, approved or suspended exactly when the last of their submissions,
      rejections and revision requests is a submission: no approval without one. */
  lemma ApprovedOnlyAfterSubmission(ops: seq<Op>, u: nat)
    ensures var t := Run(Tables(map[], []), ops);
            && (Reviewed(t, u) <==> SubmittedLast(Tables(map[], []), ops, u, false))
            && (u in t.users && t.users[u].status == Approved ==>
                  && SubmittedLast(Tables(map[], []), ops, u, false)
                  && t.users[u].verified && t.users[u].stage == Completed)
  {
    InReviewExactly(Tables(map[], []), ops, u, false);
    RunKeepsConsistent(Tables(map[], []), ops);
  }

  /** While verified users are approved users, an operation breaks that exactly when it is a revision request with
      a valid type for a verified user: the mark stays although the status goes back to unverified. */
  lemma VerifiedMeansApprovedExactly(t: Tables, op: Op, u: nat)
    requires u in t.users && (t.users[u].verified ==> t.users[u].status == Approved)
    ensures (Step(t, op).users[u].verified ==> Step(t, op).users[u].status == Approved) <==>
              !(op.RequestRevision? && op.u == u && t.users[u].verified && ParseAll(op.types) != [])
  {
  }

  /** Such a user is reachable. */
  lemma VerifiedButUnverified()
    ensures exists ops, u :: var t := Run(Tables(map[], []), ops);
              u in t.users && t.users[u].verified && t.users[u].status == Unverified
  {
    var t := RevisedRun();
    assert 1 in t.users && t.users[1].verified && t.users[1].status == Unverified;
  }

  const APPROVED_THEN_REVISED: seq<Op> :=
    [CreateUser(1), Apply(1), Submit(1, [], true), Approve(1), RequestRevision(1, ["selfie"])]

  lemma RevisedRun() returns (t5: Tables)
    ensures t5 == Tables(map[1 := User(Unverified, DocumentUpload, true)], [])
    ensures Run(Tables(map[], []), APPROVED_THEN_REVISED) == t5
  {
    var ops := APPROVED_THEN_REVISED;
    var t0 := Tables(map[], []);
    var t1 := Tables(map[1 := NEW_USER], []);
    var t2 := Tables(map[1 := User(Unverified, DocumentUpload, false)], []);
    var t3 := Tables(map[1 := User(Pending, Completed, false)], []);
    var t4 := Tables(map[1 := User(Approved, Completed, true)], []);
    t5 := Tables(map[1 := User(Unverified, DocumentUpload, true)], []);
    ReviewSteps(t0, t1, t2, t3, t4, t5);
    RunOfOne(t4, ops[4..], t5);
    RunStep(t3, ops[3..], t4);
    RunStep(t2, ops[2..], t3);
    RunStep(t1, ops[1..], t2);
    RunStep(t0, ops, t1);
  }

  lemma ReviewSteps(t0: Tables, t1: Tables, t2: Tables, t3: Tables, t4: Tables, t5: Tables)
    requires t0 == Tables(map[], []) && t1 == Tables(map[1 := NEW_USER], [])
    requires t2 == Tables(map[1 := User(Unverified, DocumentUpload, false)], [])
    requires t3 == Tables(map[1 := User(Pending, Completed, false)], [])
    requires t4 == Tables(map[1 := User(Approved, Completed, true)], [])
    requires t5 == Tables(map[1 := User(Unverified, DocumentUpload, true)], [])
    ensures Step(t0, CreateUser(1)) == t1 && Step(t1, Apply(1)) == t2 && Step(t2, Submit(1, [], true)) == t3
    ensures Step(t3, Approve(1)) == t4 && Step(t4, RequestRevision(1, ["selfie"])) == t5
  {
    SelfieParses();
  }

  lemma SelfieParses()
    ensures ParseAll(["selfie"]) == [Selfie]
  {
    assert Lower("selfie") == "selfie";
    assert ["selfie"][1..] == [];
  }

  lemma RunStep(t: Tables, ops: seq<Op>, next: Tables)
    requires ops != [] && Step(t, ops[0]) == next
    ensures Run(t, ops) == Run(next, ops[1..])
  {
  }

  lemma RunOfOne(t: Tables, ops: seq<Op>, next: Tables)
    requires |ops| == 1 && Step(t, ops[0]) == next
    ensures Run(t, ops) == next
  {
  }

  // ----- names, documents, rows -----

  /** How a document type is written. */
  function NameOf(t: DocumentType): string {
    match t
    case Passport => "passport"
    case DriversLicense => "drivers_license"
    case NationalId => "national_id"
    case Selfie => "selfie"
    case ResidencePermit => "residence_permit"
    case ProofOfAddress => "proof_of_address"
  }

  /** Parsing and writing are inverse to each other. */
  lemma ParseUndoesName(name: string, t: DocumentType)
    ensures ParseType(name) == Some(t) <==> NameOf(t) == name
  {
  }

  predicate IsName(name: string) { exists t :: NameOf(t) == name }

  /** The same letters, where capitals count as small ones. */
  predicate SameLetters(name: string, small: string) {
    && |name| == |small|
    && forall i :: 0 <= i < |name| ==>
         small[i] == if 'A' <= name[i] <= 'Z' then ('a' as int + (name[i] as int - 'A' as int)) as char else name[i]
  }

  lemma LowerIsSameLetters(name: string, small: string)
    ensures Lower(name) == small <==> SameLetters(name, small)
  {
  }

  lemma {:induction false} AllParseIsNames(names: seq<string>)
    ensures AllParse(names) <==> forall n :: n in names ==> IsName(n)
  {
    forall n: string
      ensures ParseType(n).Some? <==> IsName(n)
    {
      if ParseType(n).Some? {
        ParseUndoesName(n, ParseType(n).value);
      }
      if IsName(n) {
        var t :| NameOf(t) == n;
        ParseUndoesName(n, t);
      }
    }
  }

  /** Behind all older documents, one pending document of the user per name, in order. */
  ghost predicate StoredBehind(docs: seq<Document>, after: seq<Document>, u: nat, names: seq<string>) {
    && |after| == |docs| + |names| && after[..|docs|] == docs
    && forall i :: 0 <= i < |names| ==>
         var d := after[|docs| + i]; d.userId == u && NameOf(d.docType) == names[i] && d.status == DocPending
  }

  /** A submission goes through exactly for an unverified user at document upload who agrees and names document types
      only; it then stores one pending document per name, in order, behind all others. */
  lemma SubmissionExactly(t: Tables, u: nat, names: seq<string>, agreed: bool)
    ensures var after := Step(t, Submit(u, names, agreed));
            if u in t.users && t.users[u].status == Unverified && t.users[u].stage == DocumentUpload && agreed &&
               (forall n :: n in names ==> IsName(n)) then
              && Verdict(t, Submit(u, names, agreed)) == Ok
              && after.users == t.users[u := User(Pending, Completed, t.users[u].verified)]
              && StoredBehind(t.documents, after.documents, u, names)
            else
              && after == t
              && Verdict(t, Submit(u, names, agreed)) ==
                   Err(if u !in t.users then RowNotFound
                       else if t.users[u].status != Unverified then WrongStatus
                       else if t.users[u].stage != DocumentUpload then WrongStage
                       else if !agreed then TermsNotAgreed else InvalidDocumentType)
  {
    AllParseIsNames(names);
    if AllParse(names) {
      DocumentsBehind(t.documents, u, names);
    }
  }

  lemma DocumentsBehind(docs: seq<Document>, u: nat, names: seq<string>)
    requires AllParse(names)
    ensures StoredBehind(docs, docs + NewDocuments(u, names), u, names)
  {
    NewDocumentsNamed(u, names);
    var added := NewDocuments(u, names);
    assert forall i :: 0 <= i < |names| ==> (docs + added)[|docs| + i] == added[i];
  }

  lemma {:induction false} NewDocumentsNamed(u: nat, names: seq<string>)
    requires AllParse(names)
    ensures |NewDocuments(u, names)| == |names|
    ensures forall i :: 0 <= i < |names| ==>
              var d := NewDocuments(u, names)[i];
              d.userId == u && NameOf(d.docType) == names[i] && d.status == DocPending
  {
    if names != [] {
      assert names[0] in names && forall n :: n in names[1..] ==> n in names;
      ParseUndoesName(names[0], ParseType(names[0]).value);
      NewDocumentsNamed(u, names[1..]);
    }
  }

  /** A revision request rejects exactly the user's documents of the named types, capitals or not, and needs one name
      that is a type. */
  lemma RevisionExactly(t: Tables, u: nat, names: seq<string>)
    ensures var after := Step(t, RequestRevision(u, names));
            if u in t.users && exists n, d :: n in names && SameLetters(n, NameOf(d)) then
              && Verdict(t, RequestRevision(u, names)) == Ok
              && after.users == t.users[u := User(Unverified, DocumentUpload, t.users[u].verified)]
              && |after.documents| == |t.documents|
              && forall i :: 0 <= i < |t.documents| ==>
                   var d := t.documents[i];
                   after.documents[i] ==
                     if d.userId == u && (exists n :: n in names && SameLetters(n, NameOf(d.docType)))
                       then d.(status := DocRejected) else d
            else
              && after == t
              && Verdict(t, RequestRevision(u, names)) == Err(if u !in t.users then RowNotFound else NoValidTypes)
  {
    forall d: DocumentType
      ensures d in ParseAll(names) <==> exists n :: n in names && SameLetters(n, NameOf(d))
    {
      ParseAllExactly(names, d);
    }
    var parsed := ParseAll(names);
    if parsed != [] {
      assert parsed[0] in parsed;
    }
  }

  lemma {:induction false} ParseAllExactly(names: seq<string>, d: DocumentType)
    ensures d in ParseAll(names) <==> exists n :: n in names && SameLetters(n, NameOf(d))
  {
    if names != [] {
      ParseAllExactly(names[1..], d);
      ParseUndoesName(Lower(names[0]), d);
      LowerIsSameLetters(names[0], NameOf(d));
      assert forall n :: n in names <==> n == names[0] || n in names[1..];
    }
  }

  /** An operation is about one user: everybody else's row and documents stay, and stored documents keep owner and
      type. */
  lemma StepIsAboutOneUser(t: Tables, op: Op)
    ensures var after := Step(t, op);
            && after.users - {op.u} == t.users - {op.u}
            && |after.documents| >= |t.documents|
            && (forall i :: 0 <= i < |t.documents| ==>
                  && after.documents[i] == t.documents[i].(status := after.documents[i].status)
                  && (t.documents[i].userId != op.u ==> after.documents[i] == t.documents[i]))
            && (forall i :: |t.documents| <= i < |after.documents| ==> after.documents[i].userId == op.u)
  {
    if op.Submit? && Verdict(t, op).Ok? {
      AddedDocuments(t.documents, op.u, op.types);
    }
  }

  lemma AddedDocuments(docs: seq<Document>, u: nat, names: seq<string>)
    ensures forall i :: |docs| <= i < |docs + NewDocuments(u, names)| ==> (docs + NewDocuments(u, names))[i].userId == u
  {
    var added := NewDocuments(u, names);
    forall i | 0 <= i < |added|
      ensures added[i].userId == u
    {
      NewDocumentsOf(u, names, added[i]);
    }
  }

  /** The other moves of a user's row, each from exactly the states that allow it. */
  lemma MovesExactly(t: Tables, op: Op)
    requires !op.Submit? && !op.RequestRevision?
    ensures var after := Step(t, op).users;
            if op.u !in t.users then
              after == if op.CreateUser? then t.users[op.u := User(Unverified, IdentityBasic, false)] else t.users
            else
              var was := t.users[op.u];
              op.u in after && after[op.u] ==
                if op.Apply? && was.status == Unverified then User(Unverified, DocumentUpload, was.verified)
                else if op.Approve? && was.status == Pending then User(Approved, was.stage, true)
                else if op.Reject? then User(Rejected, IdentityBasic, false)
                else if op.Suspend? && was.status == Approved then User(Suspended, was.stage, false)
                else if op.Reinstate? && was.status == Suspended then User(Approved, was.stage, true)
                else was
    ensures Verdict(t, op) ==
              if op.CreateUser? then (if op.u in t.users then Err(RowNotFound) else Ok)
              else if op.u !in t.users then Err(RowNotFound)
              else
                var status := t.users[op.u].status;
                if op.Apply? && status != Unverified then Err(RowNotFound)
                else if op.Approve? && status != Pending then Err(WrongStatus)
                else if op.Suspend? && status != Approved then Err(WrongStatus)
                else if op.Reinstate? && status != Suspended then Err(WrongStatus)
                else Ok
  {
  }
}
