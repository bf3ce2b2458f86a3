# Multishare operation vocabulary and sizing limits

This project models the vocabulary the multishare controller of the
Filestore CSI driver uses for the long-running operations it tracks. It
also models the package's sizing constants.

- `OperationType`, the kind of an operation. It is instance or share
  crossed with create, delete or update, plus `UnknownOp`. Each value also
  has its Go `iota` integer.
- `OperationStatus` (success, running, failed, unknown) with its `iota`
  integer.
- The three wire verbs `create`, `delete` and `update`.
- `OperationType.String`, which renders an operation as its kind prefix
  followed by its verb (`instancecreate`, `sharedelete`, ...), or as
  `unknown`. This includes any integer outside the declared range.
- `ConvertInstanceOpVerbToType` and `ConvertShareOpVerbToType`, which turn
  a verb into an instance or share operation. They are total: anything that
  is not exactly one of the three verbs becomes `UnknownOp`.
- The sizing limits: instance and share size bounds, the default step,
  and the per-instance share cap. They form one immutable `Limits` value
  computed from the byte sizes of a gigabyte and a terabyte.

The Go source has no decoder from a rendered name back to an operation
type. As the partner of `String` the model adds `ParseOperationType`. It
strips the `instance` or `share` prefix and hands the rest to the matching
verb decoder of the source. The round trip is proved in both directions.

## Model

| member | source | states |
|---|---|---|
| Operations.Code | pkg/util/multishare_defs.go:47-57 | each operation type's Go value is its position in declaration order, 0 through 6 |
| Operations.OfCode | pkg/util/multishare_defs.go:47-57 | an integer names a declared operation type exactly when it lies in 0..6, and then it is that type's value |
| Operations.CodeRoundTrip | pkg/util/multishare_defs.go:47-57 | the integer view of OperationType is a bijection between the seven variants and 0..6 |
| Operations.StatusCode | pkg/util/multishare_defs.go:78-85 | each status's Go value is its position in declaration order, 0 through 3 |
| Operations.StatusOfCode | pkg/util/multishare_defs.go:78-85 | an integer names a declared status exactly when it lies in 0..3, and then it is that status's value |
| Operations.StatusCodeRoundTrip | pkg/util/multishare_defs.go:78-85 | the integer view of OperationStatus is a bijection between the four variants and 0..3 |
| Operations.String | pkg/util/multishare_defs.go:59-76 | the rendering is "unknown" exactly for UnknownOp; an instance operation renders as "instance" followed by a verb, a share operation as "share" followed by a verb |
| Operations.StringOfCode | pkg/util/multishare_defs.go:59-76 | a declared value renders like its variant; exactly the integers outside 0..5 render as "unknown" |
| Operations.StringInjective | pkg/util/multishare_defs.go:59-76 | distinct operation types never render to the same string |
| Operations.StringOfCodeInjective | pkg/util/multishare_defs.go:47-76 | two integers with the same rendering are equal when one of them is a valid operation; every other integer renders differently from every valid operation |
| Operations.ParseOperationType | pkg/util/multishare_defs.go:59-76 | the model's own inverse of String, with no counterpart in the Go source, built from the two source decoders: a name with the instance prefix parses to an instance operation or UnknownOp, and likewise for the share prefix |
| Operations.ParseString | pkg/util/multishare_defs.go:59-76 | parsing the rendering of any operation type gives that type back |
| Operations.StringParse | pkg/util/multishare_defs.go:59-76 | any string that parses to a valid operation is exactly that operation's rendering |
| Operations.VerbsDistinct | pkg/util/multishare_defs.go:87-91 | the three verb constants are pairwise distinct, so at most one switch case matches |
| Operations.ConvertInstanceOpVerbToType | pkg/util/multishare_defs.go:93-104 | create, delete and update map to InstanceCreate, InstanceDelete and InstanceUpdate, each in both directions; every other string maps to UnknownOp; the result is never a share operation; rendering the result gives "instance" followed by the verb, or "unknown" |
| Operations.ConvertShareOpVerbToType | pkg/util/multishare_defs.go:106-117 | create, delete and update map to ShareCreate, ShareDelete and ShareUpdate, each in both directions; every other string maps to UnknownOp; the result is never an instance operation; rendering the result gives "share" followed by the verb, or "unknown" |
| Operations.DecodersAreExact | pkg/util/multishare_defs.go:93-117 | the empty string, differently cased verbs, a verb with a leading space and a full rendered name are all UnknownOp |
| Operations.DecodersAgree | pkg/util/multishare_defs.go:93-117 | both decoders accept the same verbs and decode them to the same verb; only the resource kind differs |
| Sizing.GoDiv | pkg/util/multishare_defs.go:30 | Go's integer division leaves a remainder smaller than the divisor in magnitude, with the sign of the dividend |
| Sizing.LimitsFor | pkg/util/multishare_defs.go:26-44 | the minimum instance is one terabyte and the configurable-pack minimum share is ten gigabytes; the maximum share equals the minimum instance; the maximum instance is ten minimum instances; the minimum share is ten configurable-pack minimum shares; at most 10 shares per instance; the step in gigabytes times one gigabyte is within one gigabyte below the minimum instance size |
| Sizing.StepSpansMinInstance | pkg/util/multishare_defs.go:30 | when a terabyte is k whole gigabytes, the default step is exactly k and one step equals the minimum instance size |
| Sizing.LimitsFitInt64 | pkg/util/multishare_defs.go:26-44 | every sizing constant fits in an int64 |

## Left out

- The byte sizes of a gigabyte and a terabyte are defined in another file of the package that is not part of this model. They are parameters (`Sizing.Units`), assumed positive and small enough for the constants to fit in an `int64`. No ratio between them is assumed, so the model does not claim that the minimum share is below the maximum share.
- `OpTimeLayout` and `ErrRetention` (lines 40-41) are a time layout and a duration from Go's `time` package. Time formatting and parsing are not modelled.
- `FilestoreResourceCleanupFinalizer`, `NewMultishareInstancePrefix` and `ParamMultishareInstanceScLabelKey` (lines 32-38) are opaque strings used by Kubernetes machinery. No logic depends on their content.
- The URI split lengths (lines 22-24) are left out. The function that splits identifiers with them is not part of this model.
- `pkg/apis/multishare/v1beta1/doc.go` holds only a package comment and code-generation markers, so it has no behaviour to model.
- The controller's instance packing, operation tracking and finalizer handling live in other packages and are not modelled.
- Go strings are byte sequences, while the model's `string` is a sequence of Unicode characters. A Go string that is not valid UTF-8 cannot be expressed in the model. The decoders and the parser only compare against ASCII literals, so behaviour on valid strings is unchanged.
