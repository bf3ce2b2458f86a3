/** The operation vocabulary of the multishare controller: the kinds of
    long-running operation it tracks against Filestore instances and shares,
    their statuses, the wire verbs, the rendering of an operation type as a
    string and the two decoders that turn a verb into an operation type.

    In the Go source both enums are `int` types numbered with `iota`; here
    each is a datatype, and `Code` / `OfCode` give the integer view. */
module Operations {

  datatype Option<T> = None | Some(value: T)

  /** The three verbs an operation intent may carry. */
  const OpVerbCreate: string := "create"
  const OpVerbDelete: string := "delete"
  const OpVerbUpdate: string := "update"

  /** The resource-kind prefixes `String` puts in front of a verb, and the
      name of every value that is not a valid operation. */
  const InstancePrefix: string := "instance"
  const SharePrefix: string := "share"
  const UnknownName: string := "unknown"

  predicate IsOpVerb(v: string) {
    v == OpVerbCreate || v == OpVerbDelete || v == OpVerbUpdate
  }

  datatype OperationType =
    | InstanceCreate
    | InstanceDelete
    | InstanceUpdate
    | ShareCreate
    | ShareDelete
    | ShareUpdate
    | UnknownOp
  {
    predicate IsInstanceOp() {
      InstanceCreate? || InstanceDelete? || InstanceUpdate?
    }

    predicate IsShareOp() {
      ShareCreate? || ShareDelete? || ShareUpdate?
    }
  }

  datatype OperationStatus =
    | StatusSuccess
    | StatusRunning
    | StatusFailed
    | StatusUnknown

  /** The variants in declaration order: the variant at index i is the one
      whose Go value is i. */
  const AllOperationTypes: seq<OperationType> :=
    [InstanceCreate, InstanceDelete, InstanceUpdate, ShareCreate, ShareDelete, ShareUpdate, UnknownOp]

  const AllOperationStatuses: seq<OperationStatus> :=
    [StatusSuccess, StatusRunning, StatusFailed, StatusUnknown]

  /** The Go integer value of an operation type. */
  function Code(t: OperationType): (c: nat)
    ensures c < |AllOperationTypes| && AllOperationTypes[c] == t
  {
    match t
    case InstanceCreate => 0
    case InstanceDelete => 1
    case InstanceUpdate => 2
    case ShareCreate => 3
    case ShareDelete => 4
    case ShareUpdate => 5
    case UnknownOp => 6
  }

  /** The declared operation type whose Go value is `c`, if there is one. */
  function OfCode(c: int): (r: Option<OperationType>)
    ensures r.Some? <==> 0 <= c < |AllOperationTypes|
    ensures r.Some? ==> Code(r.value) == c
  {
    if 0 <= c < |AllOperationTypes| then Some(AllOperationTypes[c]) else None
  }

  /** The Go integer value of an operation status. */
  function StatusCode(s: OperationStatus): (c: nat)
    ensures c < |AllOperationStatuses| && AllOperationStatuses[c] == s
  {
    match s
    case StatusSuccess => 0
    case StatusRunning => 1
    case StatusFailed => 2
    case StatusUnknown => 3
  }

  /** The declared operation status whose Go value is `c`, if there is one. */
  function StatusOfCode(c: int): (r: Option<OperationStatus>)
    ensures r.Some? <==> 0 <= c < |AllOperationStatuses|
    ensures r.Some? ==> StatusCode(r.value) == c
  {
    if 0 <= c < |AllOperationStatuses| then Some(AllOperationStatuses[c]) else None
  }

  /** `OperationType.String`: the kind prefix followed by the verb, or
      "unknown" for `UnknownOp`. */
  function String(t: OperationType): (s: string)
    ensures s == UnknownName <==> t == UnknownOp
    ensures t.IsInstanceOp() ==> InstancePrefix <= s && IsOpVerb(s[|InstancePrefix|..])
    ensures t.IsShareOp() ==> SharePrefix <= s && IsOpVerb(s[|SharePrefix|..])
  {
    match t
    case InstanceCreate => InstancePrefix + OpVerbCreate
    case InstanceDelete => InstancePrefix + OpVerbDelete
    case InstanceUpdate => InstancePrefix + OpVerbUpdate
    case ShareCreate => SharePrefix + OpVerbCreate
    case ShareDelete => SharePrefix + OpVerbDelete
    case ShareUpdate => SharePrefix + OpVerbUpdate
    case UnknownOp => UnknownName
  }

  /** `String` applied to an arbitrary Go integer of type OperationType:
      values outside the declared range fall to the default branch. */
  function StringOfCode(c: int): (s: string)
    ensures 0 <= c < |AllOperationTypes| ==> s == String(AllOperationTypes[c])
    ensures !(0 <= c < Code(UnknownOp)) <==> s == UnknownName
  {
    match OfCode(c)
    case Some(t) => String(t)
    case None => UnknownName
  }

  /** `ConvertInstanceOpVerbToType`: a verb of an instance operation. */
  function ConvertInstanceOpVerbToType(v: string): (t: OperationType)
    ensures t.IsInstanceOp() || t == UnknownOp
    ensures t == InstanceCreate <==> v == OpVerbCreate
    ensures t == InstanceDelete <==> v == OpVerbDelete
    ensures t == InstanceUpdate <==> v == OpVerbUpdate
    ensures t == UnknownOp <==> !IsOpVerb(v)
    ensures IsOpVerb(v) ==> String(t) == InstancePrefix + v
    ensures !IsOpVerb(v) ==> String(t) == UnknownName
  {
    if v == OpVerbCreate then InstanceCreate
    else if v == OpVerbDelete then InstanceDelete
    else if v == OpVerbUpdate then InstanceUpdate
    else UnknownOp
  }

  /** `ConvertShareOpVerbToType`: a verb of a share operation. */
  function ConvertShareOpVerbToType(v: string): (t: OperationType)
    ensures t.IsShareOp() || t == UnknownOp
    ensures t == ShareCreate <==> v == OpVerbCreate
    ensures t == ShareDelete <==> v == OpVerbDelete
    ensures t == ShareUpdate <==> v == OpVerbUpdate
    ensures t == UnknownOp <==> !IsOpVerb(v)
    ensures IsOpVerb(v) ==> String(t) == SharePrefix + v
    ensures !IsOpVerb(v) ==> String(t) == UnknownName
  {
    if v == OpVerbCreate then ShareCreate
    else if v == OpVerbDelete then ShareDelete
    else if v == OpVerbUpdate then ShareUpdate
    else UnknownOp
  }

  /** No string starts with both kind prefixes: they differ in their first
      character. */
  lemma PrefixesExclusive(s: string)
    ensures InstancePrefix <= s ==> !(SharePrefix <= s)
  {
    if InstancePrefix <= s {
      assert s[0] == InstancePrefix[0] != SharePrefix[0];
    }
  }

  /** The inverse of `String`: it strips the kind prefix and hands the rest
      to that kind's verb decoder. */
  function ParseOperationType(s: string): (t: OperationType)
    ensures InstancePrefix <= s ==> t.IsInstanceOp() || t == UnknownOp
    ensures SharePrefix <= s ==> t.IsShareOp() || t == UnknownOp
  {
    if InstancePrefix <= s then
      PrefixesExclusive(s);
      ConvertInstanceOpVerbToType(s[|InstancePrefix|..])
    else if SharePrefix <= s then ConvertShareOpVerbToType(s[|SharePrefix|..])
    else UnknownOp
  }

  /** The three verb constants are pairwise distinct, so each decoder's
      switch selects exactly one branch for any input. */
  lemma VerbsDistinct()
    ensures OpVerbCreate != OpVerbDelete
    ensures OpVerbCreate != OpVerbUpdate
    ensures OpVerbDelete != OpVerbUpdate
  {
  }

  /** Verbs are matched exactly: the empty string, a different case or
      surrounding white space is not a verb. */
  lemma DecodersAreExact()
    ensures ConvertInstanceOpVerbToType("") == UnknownOp
    ensures ConvertShareOpVerbToType("") == UnknownOp
    ensures ConvertInstanceOpVerbToType("Create") == UnknownOp
    ensures ConvertShareOpVerbToType("DELETE") == UnknownOp
    ensures ConvertShareOpVerbToType(" update") == UnknownOp
    ensures ConvertInstanceOpVerbToType(InstancePrefix + OpVerbCreate) == UnknownOp
  {
  }

  /** The two decoders accept the same verbs and agree on which verb it is;
      they differ only in the kind of resource. */
  lemma DecodersAgree(v: string)
    ensures ConvertInstanceOpVerbToType(v) == UnknownOp <==> ConvertShareOpVerbToType(v) == UnknownOp
    ensures ConvertInstanceOpVerbToType(v) != UnknownOp ==>
      String(ConvertInstanceOpVerbToType(v))[|InstancePrefix|..] == String(ConvertShareOpVerbToType(v))[|SharePrefix|..]
    ensures !ConvertInstanceOpVerbToType(v).IsShareOp() && !ConvertShareOpVerbToType(v).IsInstanceOp()
  {
  }

  /** Rendering an operation type and parsing the result gives it back. */
  lemma ParseString(t: OperationType)
    ensures ParseOperationType(String(t)) == t
  {
    if t.IsShareOp() {
      PrefixesExclusive(String(t));
    }
  }

  /** Every string that parses to a valid operation is that operation's
      rendering: `ParseOperationType` accepts exactly the six names. */
  lemma StringParse(s: string)
    ensures ParseOperationType(s) != UnknownOp ==> String(ParseOperationType(s)) == s
  {
    if InstancePrefix <= s {
      assert s == InstancePrefix + s[|InstancePrefix|..];
    } else if SharePrefix <= s {
      assert s == SharePrefix + s[|SharePrefix|..];
    }
  }

  /** `String` gives each of the seven variants a different name. */
  lemma StringInjective(a: OperationType, b: OperationType)
    ensures String(a) == String(b) ==> a == b
  {
    ParseString(a);
    ParseString(b);
  }

  /** An integer outside the declared operations renders like `UnknownOp`,
      and no two declared values share a rendering. */
  lemma StringOfCodeInjective(c1: int, c2: int)
    requires 0 <= c1 < Code(UnknownOp)
    ensures StringOfCode(c1) == StringOfCode(c2) ==> c1 == c2
  {
    if 0 <= c2 < |AllOperationTypes| {
      StringInjective(AllOperationTypes[c1], AllOperationTypes[c2]);
    }
  }

  /** The integer view of the status enum is a bijection onto 0..3. */
  lemma StatusCodeRoundTrip(s: OperationStatus, c: int)
    ensures StatusOfCode(StatusCode(s)) == Some(s)
    ensures StatusOfCode(c).Some? ==> StatusCode(StatusOfCode(c).value) == c
  {
  }

  /** The integer view of the operation-type enum is a bijection onto 0..6. */
  lemma CodeRoundTrip(t: OperationType, c: int)
    ensures OfCode(Code(t)) == Some(t)
    ensures OfCode(c).Some? ==> Code(OfCode(c).value) == c
  {
  }
}
