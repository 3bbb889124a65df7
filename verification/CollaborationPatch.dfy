/** Applying a proposal's patch: policy check, operations, revision stamp, host validation. */
module CollaborationPatch {
  import opened Text
  import opened Pointer
  import opened JsonPatch

  function OperationPaths(op: Operation): seq<string> {
    if op.Move? || op.Copy? then [op.path, op.from] else [op.path]
  }

  predicate PolicyApproved(op: Operation) {
    forall path :: path in OperationPaths(op) ==> !TargetsFrameworkOwnedIdentity(path)
  }

  predicate AllApproved(ops: seq<Operation>) {
    forall k :: 0 <= k < |ops| ==> PolicyApproved(ops[k])
  }

  function InsertDistinct(path: string, sorted: seq<string>): seq<string> {
    if sorted == [] then [path]
    else if path == sorted[0] then sorted
    else if StringLess(path, sorted[0]) then [path] + sorted
    else [sorted[0]] + InsertDistinct(path, sorted[1..])
  }

  function SortDistinct(paths: seq<string>): seq<string> {
    if paths == [] then [] else InsertDistinct(paths[0], SortDistinct(paths[1..]))
  }

  function AllPaths(ops: seq<Operation>): seq<string>
    decreases |ops|
  {
    if ops == [] then [] else OperationPaths(ops[0]) + AllPaths(ops[1..])
  }

  function ChangedPaths(ops: seq<Operation>): seq<string> {
    SortDistinct(AllPaths(Changes(ops)))
  }

  function RemovedPaths(ops: seq<Operation>): seq<string>
    decreases |ops|
  {
    if ops == [] then []
    else (if ops[0].Remove? then [ops[0].path] else []) + RemovedPaths(ops[1..])
  }

  const REVISION: Tokens := ["revision"]

  function Stamp(doc: Json, revision: string): Json
    requires doc.Obj?
  {
    Obj(doc.members["revision" := Str(revision)])
  }

  datatype PatchFailure = FrameworkOwned | OperationFailed | ValidationRejected

  datatype PatchResult =
    | Patched(changedPaths: seq<string>, document: Json, removedPaths: seq<string>)
    | Rejected(failure: PatchFailure)

  function ApplyCollaborationPatch(document: Json, ops: seq<Operation>, revision: string,
                                   validates: Json -> bool): PatchResult
    requires document.Obj?
  {
    if !AllApproved(ops) then Rejected(FrameworkOwned)
    else
      match ApplyAll(document, ops)
      case None => Rejected(OperationFailed)
      case Some(result) =>
        PatchKeepsObject(document, ops);
        var candidate := Stamp(result, revision);
        if !validates(candidate) then Rejected(ValidationRejected)
        else Patched(ChangedPaths(ops), candidate, RemovedPaths(ops))
  }

  // ---------------------------------------------------------------------------------------------

  lemma {:induction false} InsertDistinctMembers(path: string, sorted: seq<string>)
    ensures forall p :: p in InsertDistinct(path, sorted) <==> p == path || p in sorted
  {
    if sorted != [] && path != sorted[0] && !StringLess(path, sorted[0]) {
      InsertDistinctMembers(path, sorted[1..]);
      assert sorted == [sorted[0]] + sorted[1..];
    }
  }

  lemma {:induction false} SortDistinctMembers(paths: seq<string>)
    ensures forall p :: p in SortDistinct(paths) <==> p in paths
  {
    if paths != [] {
      SortDistinctMembers(paths[1..]);
      InsertDistinctMembers(paths[0], SortDistinct(paths[1..]));
      assert paths == [paths[0]] + paths[1..];
    }
  }

  lemma {:induction false} AllPathsMembers(ops: seq<Operation>)
    ensures forall p :: p in AllPaths(ops) <==> exists k :: 0 <= k < |ops| && p in OperationPaths(ops[k])
    decreases |ops|
  {
    if ops != [] {
      AllPathsMembers(ops[1..]);
      forall p ensures p in AllPaths(ops) <==> exists k :: 0 <= k < |ops| && p in OperationPaths(ops[k]) {
        if p in AllPaths(ops[1..]) {
          var k :| 0 <= k < |ops[1..]| && p in OperationPaths(ops[1..][k]);
          assert p in OperationPaths(ops[k + 1]);
        }
        if k :| 0 <= k < |ops| && p in OperationPaths(ops[k]) {
          if k > 0 {
            assert p in OperationPaths(ops[1..][k - 1]);
          }
        }
      }
    }
  }

  lemma {:induction false} ChangesMembers(ops: seq<Operation>)
    ensures forall op :: op in Changes(ops) <==> op in ops && !op.Test?
    decreases |ops|
  {
    if ops != [] {
      ChangesMembers(ops[1..]);
      assert ops == [ops[0]] + ops[1..];
    }
  }

  /** In order and without repetition. */
  predicate Ascending(paths: seq<string>) {
    forall i, j :: 0 <= i < j < |paths| ==> StringLess(paths[i], paths[j])
  }

  lemma {:induction false} InsertDistinctAscends(path: string, sorted: seq<string>)
    requires Ascending(sorted)
    ensures Ascending(InsertDistinct(path, sorted))
  {
    if sorted != [] && path != sorted[0] {
      StringOrderIsTotal(path, sorted[0]);
      if StringLess(path, sorted[0]) {
        forall j | 1 <= j < |sorted| ensures StringLess(path, sorted[j]) {
          StringOrderIsTransitive(path, sorted[0], sorted[j]);
        }
      } else {
        var rest := InsertDistinct(path, sorted[1..]);
        InsertDistinctAscends(path, sorted[1..]);
        InsertDistinctMembers(path, sorted[1..]);
        forall j | 0 <= j < |rest| ensures StringLess(sorted[0], rest[j]) {
          assert rest[j] in rest;
        }
      }
    }
  }

  lemma {:induction false} SortDistinctAscends(paths: seq<string>)
    ensures Ascending(SortDistinct(paths))
  {
    if paths != [] {
      SortDistinctAscends(paths[1..]);
      InsertDistinctAscends(paths[0], SortDistinct(paths[1..]));
    }
  }

  lemma {:induction false} RemovedPathsMeaning(ops: seq<Operation>)
    ensures forall p :: p in RemovedPaths(ops) <==> Remove(p) in ops
    decreases |ops|
  {
    if ops != [] {
      RemovedPathsMeaning(ops[1..]);
      assert ops == [ops[0]] + ops[1..];
      assert ops[0].Remove? ==> ops[0] == Remove(ops[0].path);
    }
  }

  /** A revision records exactly the paths its changing operations name, each once and in order. */
  lemma ChangedPathsMeaning(ops: seq<Operation>)
    ensures forall p :: p in ChangedPaths(ops) <==> exists op :: op in ops && !op.Test? && p in OperationPaths(op)
    ensures Ascending(ChangedPaths(ops))
  {
    SortDistinctAscends(AllPaths(Changes(ops)));
    ChangesMembers(ops);
    AllPathsMembers(Changes(ops));
    SortDistinctMembers(AllPaths(Changes(ops)));
    forall p ensures p in ChangedPaths(ops) <==> exists op :: op in ops && !op.Test? && p in OperationPaths(op) {
      if op :| op in ops && !op.Test? && p in OperationPaths(op) {
        assert op in Changes(ops);
        var k :| 0 <= k < |Changes(ops)| && Changes(ops)[k] == op;
      }
    }
  }

  /** Policy-approved operations carry pointers that decode. */
  lemma ApprovedIsAddressable(op: Operation)
    requires PolicyApproved(op)
    ensures Addressable(op)
    ensures Address(op.path).value != REVISION
    ensures op.Move? || op.Copy? ==> Address(op.from).value != REVISION
  {
    assert op.path in OperationPaths(op);
    ApprovedPath(op.path);
    if op.Move? || op.Copy? {
      assert op.from in OperationPaths(op);
      ApprovedPath(op.from);
    }
  }

  lemma ApprovedPath(path: string)
    requires !TargetsFrameworkOwnedIdentity(path)
    ensures Address(path).Some? && Address(path).value != REVISION
  {
    EncodeDecodePointer(path);
    OtherText(path, DecodePointer(path).value, "revision");
  }

  /** A pointer is refused exactly when it does not decode, names the revision member, or ends in a member named "id". */
  lemma RefusedPointers(path: string)
    ensures TargetsFrameworkOwnedIdentity(path) <==>
            Address(path).None? || Address(path).value == ["revision"] || Last(Address(path).value) == "id"
  {
    if DecodePointer(path).Some? {
      EncodeDecodePointer(path);
      NamesMember(path, Address(path).value, "revision");
    }
  }

  lemma NamesMember(path: string, tokens: Tokens, token: string)
    requires '~' !in token && '/' !in token && DecodePointer(path).Some? && DecodePointer(path).value == tokens
    ensures path == "/" + token <==> tokens == [token]
  {
    EncodeDecodePointer(path);
    PlainPointer(token);
    if path == "/" + token {
      DecodeEncodePointer([token]);
    }
  }

  /** The patch claims nothing around the place and nothing inside. */
  predicate Bypasses(op: Operation, q: Tokens)
    requires Addressable(op)
  {
    forall p :: p in Footprint(op) && Overlap(p, q) ==> p == q
  }

  lemma IdentityAvoided(op: Operation, q: Tokens)
    requires PolicyApproved(op) && Addressable(op) && Bypasses(op, q) && q != [] && Last(q) == "id"
    ensures Avoids(Footprint(op), q)
  {
    assert op.path in OperationPaths(op) && (op.Move? || op.Copy? ==> op.from in OperationPaths(op));
    RefusedPointers(op.path);
    if op.Move? || op.Copy? {
      RefusedPointers(op.from);
    }
    assert Address(op.path).value != q && (op.Move? || op.Copy? ==> Address(op.from).value != q);
  }

  /** A member named "id" keeps its value under an approved patch, unless the patch replaces or moves something around it. */
  lemma {:induction false} IdentitiesAreKept(doc: Json, ops: seq<Operation>, q: Tokens)
    requires doc.Obj? && AllApproved(ops) && ApplyAll(doc, ops).Some? && q != [] && Last(q) == "id"
    requires forall op :: op in ops ==> Addressable(op) && Bypasses(op, q)
    ensures Lookup(ApplyAll(doc, ops).value, q) == Lookup(doc, q)
    decreases |ops|
  {
    if ops != [] {
      assert ops[0] in ops && PolicyApproved(ops[0]);
      IdentityAvoided(ops[0], q);
      LookupPastOperation(doc, ops[0], q);
      RootStaysObject(doc, ops[0]);
      IdentitiesAreKept(Apply(doc, ops[0]).value, ops[1..], q);
    }
  }

  lemma OtherText(path: string, tokens: Tokens, token: string)
    requires '~' !in token && '/' !in token && EncodePointer(tokens) == path && path != "/" + token
    ensures tokens != [token]
  {
    PlainPointer(token);
  }

  lemma PlainPointer(token: string)
    requires '~' !in token && '/' !in token
    ensures EncodePointer([token]) == "/" + token
  {
    PlainToken(token);
    assert EncodeEach([token]) == [token];
  }

  lemma {:induction false} PlainToken(token: string)
    requires '~' !in token && '/' !in token
    ensures EncodeToken(token) == token
  {
    TwoPassEncodeIsOnePass(token);
    if token != "" {
      PlainToken(token[1..]);
      TwoPassEncodeIsOnePass(token[1..]);
    }
  }
}
