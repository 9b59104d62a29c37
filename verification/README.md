# Session kernel bridge — a Dafny model

This project models `src/session/models/kernel_bridge.js` of the nelu-kernelu
Jupyter kernel: the bridge object that code running inside a kernel session
uses to print output, open comms (named bidirectional channels) with the host,
and ask the host to display rich content. It also models the helper that folds
a dotted version name and a build number into one integer version code.

Modules:

- `Wrappers` (`wrappers.dfy`): `Option` and `Result`.
- `JsValues` (`js_values.dfy`): the JavaScript values the bridge inspects,
  their truthiness (`!x`, `x || d`) and the `typeof` operator.
- `Decimal` (`decimal.dfy`): powers of ten, `String.prototype.split` on one
  character and its inverse `Join`, strict base-10 parsing and printing.
- `VersionCode` (`version_code.dfy`): `getVersionCodeFrom`. `WeightedSum` over
  the reversed pieces is the source's loop; `DecimalValue` is an independent
  reading of the pieces as base-10 digits; the lemmas connect the two, close
  the three-component case to `(100x + 10y + z) * 1000 + build`, give the
  weight of each piece, and decode a code back into its digits and build.
- `KernelBridge` (`kernel_bridge.dfy`): the bridge as an immutable value and
  its collaborators as a `World` — the log of events posted to the host port,
  the comm registry's contents, and the comm manager's bindings. Each
  operation takes the bridge and a world and returns an `Outcome` (the result
  or the error, and the next world). `Run` applies a sequence of calls.

The bridge's getters `version`, `taskId` and `userName` are the fields of the
`Bridge` datatype. Because the bridge is a value that every operation receives
and none returns, no operation can change its identity; `ConstructedIdentity`
states what the getters return after construction.

Where the code and its documentation differ, the model follows the code:

- `newCommFor` only rejects a falsy `targetName`. A truthy non-string, such as
  the number 5, is accepted as a target name.
- `display` checks `typeof content !== 'object'`. Since `typeof null` is
  `"object"`, and arrays are objects, `null` and arrays are displayed.
- `getVersionCodeFrom` takes any number of pieces, not only three.

## Model

| member | source | states |
|---|---|---|
| `Decimal.Pow10` | src/session/models/kernel_bridge.js:21 | the weight `Math.pow(10, i)` is a positive natural |
| `Decimal.Pow10Add` | src/session/models/kernel_bridge.js:21 | the weights multiply: 10^(a+b) = 10^a * 10^b |
| `Decimal.ParseDecimal` | src/session/models/kernel_bridge.js:21 | a piece parses exactly when it is a non-empty run of ASCII digits |
| `Decimal.ParseDecimalValue` | src/session/models/kernel_bridge.js:21 | a run of digits parses to its base-10 reading, digit by digit, leading zeros included |
| `Decimal.LeadingZeroIgnored` | src/session/models/kernel_bridge.js:21 | a leading zero does not change the value a piece reads as ("07" reads as 7) |
| `Decimal.ShowNat` | src/session/models/kernel_bridge.js:32 | the printed build number is a non-empty run of digits with no leading zero, and it starts with '0' only for 0 |
| `Decimal.ParseShowNat` | src/session/models/kernel_bridge.js:32 | parsing a printed natural gives that natural back |
| `Decimal.Split` | src/session/models/kernel_bridge.js:16 | splitting yields at least one piece, no piece holds the separator, and joining the pieces gives the input back |
| `Decimal.SplitJoin` | src/session/models/kernel_bridge.js:16 | splitting undoes joining for separator-free pieces |
| `VersionCode.Reverse` | src/session/models/kernel_bridge.js:19 | the reversed pieces: element i is the input's element n-1-i |
| `VersionCode.WeightedSum` | src/session/models/kernel_bridge.js:20-22 | the accumulated sum is at least `10^i * ws[i]` for every position i |
| `VersionCode.WeightedSumIsDecimal` | src/session/models/kernel_bridge.js:20-22 | the accumulation equals the decimal reading of its elements taken in reverse order, so element i adds exactly `ws[i] * 10^i` |
| `VersionCode.ReversedWeightedSumIsDecimal` | src/session/models/kernel_bridge.js:19-22 | reversing the pieces and weighting piece i by 10^i reads them as decimal digits, most significant first |
| `VersionCode.CodeFromParts` | src/session/models/kernel_bridge.js:16-24 | the code of parsed pieces is their decimal reading times 1000 plus the build number |
| `VersionCode.ParseComponents` | src/session/models/kernel_bridge.js:21 | all pieces parse exactly when each is a digit run, and then each value is its piece's parse |
| `VersionCode.GetVersionCodeFrom` | src/session/models/kernel_bridge.js:15-25 | a code exists exactly when every dot-separated piece is a number, and it is the decimal reading of the pieces times 1000 plus the build number |
| `VersionCode.ThreeComponentCode` | src/session/models/kernel_bridge.js:9-25 | components x, y, z give `(100x + 10y + z) * 1000 + build` |
| `VersionCode.DottedNameCode` | src/session/models/kernel_bridge.js:9-25 | the name "x.y.z" gives `(100x + 10y + z) * 1000 + build` for any naturals x, y, z |
| `VersionCode.DottedPiecesCode` | src/session/models/kernel_bridge.js:15-25 | "a.b.c" gives `xyz000 + build` whenever a, b, c read as x, y, z |
| `VersionCode.ExampleCode` | src/session/models/kernel_bridge.js:9 | an instance of `xyz000 + build`: "1.2.3" with build 45 gives 123045 |
| `VersionCode.PartContribution` | src/session/models/kernel_bridge.js:19-23 | piece k of n, in the name's own order, adds `parts[k] * 10^(n-1-k) * 1000` to the code |
| `VersionCode.DecodeEncode` | src/session/models/kernel_bridge.js:8-13 | for single-digit components and a build below 1000, the code decodes back to the components and the build |
| `VersionCode.DigitCodesInjective` | src/session/models/kernel_bridge.js:8-13 | distinct single-digit versions of one length with builds below 1000 never share a code |
| `VersionCode.ComponentsAboveNineCollide` | src/session/models/kernel_bridge.js:20-22 | a component of 10 or more spills into its neighbour: "1.20.3" and "3.0.3" share a code |
| `VersionCode.BuildAboveNineHundredNinetyNineCollides` | src/session/models/kernel_bridge.js:23 | a build of 1000 carries into the last component |
| `JsValues.IsFalsy` | src/session/models/kernel_bridge.js:65 | only primitives and null are falsy; every object, array and function, `{}` included, is truthy |
| `JsValues.Or` | src/session/models/kernel_bridge.js:68-69 | the defaulting `a or b` yields one of its operands, is falsy only when both are, and so is truthy whenever the default is |
| `JsValues.TypeOf` | src/session/models/kernel_bridge.js:87 | `typeof` is "object" exactly for null, arrays and objects |
| `KernelBridge.NewBridge` | src/session/models/kernel_bridge.js:28-42 | the bridge keeps the task id, user name and port; the version name is `versionName + "." + build`; the code exists exactly when the name's pieces are numbers and is their decimal reading times 1000 plus the build; the bridge is bound once and nothing is posted or registered |
| `KernelBridge.ConstructedIdentity` | src/session/models/kernel_bridge.js:30-52 | after constructing with name "x.y.z", the getters return the task id, the user name and the record `{x.y.z.build, xyz000 + build}` |
| `KernelBridge.Print` | src/session/models/kernel_bridge.js:54-58 | zero items leave the world unchanged, and only zero items do; otherwise exactly one print event with the task id and the items in order is appended to the log, and the registry and bindings are untouched |
| `KernelBridge.NewCommFor` | src/session/models/kernel_bridge.js:63-74 | fails exactly when the target name is falsy, then synchronously and with the world unchanged; otherwise registers exactly one comm with the task id, port, target name and falsy data replaced by `{}` (so the comm's data is always truthy), returns that comm, and posts nothing |
| `KernelBridge.NewComm` | src/session/models/kernel_bridge.js:60-62 | always succeeds with the comm on "jknb.comm" with empty data, registered alone, and equals `newCommFor` with explicit empty data |
| `KernelBridge.Display` | src/session/models/kernel_bridge.js:76-95 | succeeds exactly for a displayable whose content has `typeof` "object", then appending one display-data event with the task id and the content; a non-displayable fails with the synchronous error, other content with the rejection (the only failure not raised synchronously), and a failure changes nothing |
| `KernelBridge.RaisedSynchronously` | src/session/models/kernel_bridge.js:77-93 | the missing-target and non-displayable errors are thrown by the call itself; the non-object content error rejects the promise `display` returns |
| `KernelBridge.Message` | src/session/models/kernel_bridge.js:66-93 | each error carries the source's message text |
| `KernelBridge.MessagesIdentifyErrors` | src/session/models/kernel_bridge.js:66-93 | distinct errors carry distinct messages |
| `KernelBridge.StepAppends` | src/session/models/kernel_bridge.js:54-95 | one call appends one event when it posts, one comm when it opens one, keeps earlier entries and bindings, and stamps new entries with the bridge's task id and port |
| `KernelBridge.RunAppends` | src/session/models/kernel_bridge.js:54-95 | over any sequence of calls the log and registry are append-only, grow by the number of posting and comm-opening calls, carry the bridge's task id and port in every new entry, and the bindings never change |
| `KernelBridge.FailingCallsChangeNothing` | src/session/models/kernel_bridge.js:54-95 | a sequence of calls that each fail or print nothing leaves the world exactly as it was |

## Left out

- JavaScript `parseInt` is lenient (`"3rc1"` reads as 3, `" 3"` as 3, `"-1"` as -1). The model parses a piece only when it is a non-empty run of ASCII digits. Anything else yields a code of `None`, which stands for NaN.
- `Math.pow` and the sum are floating point in the source. The model computes them exactly on naturals, so precision loss for long names or large parts is not modelled.
- Build numbers are naturals. Negative or fractional JavaScript numbers are not modelled.
- The build number and the version code are exact naturals here. In the source they are 64-bit floats: `versCode * 1000 + buildNumber` rounds once the value passes 2^53, and from 10^21 up `${buildNumber}` prints exponent notation (`1e+21`) in the version name, not the digit run `ShowNat` gives.
- VersionCode.WeightedSum: its own contract only bounds each term from below; the exact value of the accumulation is stated by `WeightedSumIsDecimal` and `ReversedWeightedSumIsDecimal`.
- JavaScript numbers are integers in `JsValue`. The falsy values NaN, -0 and 0n are not represented; symbols and BigInts are left out.
- The promise in `display` is collapsed. A displayable carries the content its `_toDisplay()` resolves to, whether it was returned directly or through a promise. A `_toDisplay()` that throws, and a promise that rejects or never settles, are not modelled. The sync/async split of the two failures is recorded by `RaisedSynchronously`.
- `SessionPrintEvent`, `SessionDisplayDataEvent`, `SessionKernelComm`, `JupyterDisplayableMessage` and the comm manager are not part of this model. Events and comms are opaque records of the arguments they are built from, so two comms built from equal arguments are equal here. Any fresh identifier `SessionKernelComm.newFor` may assign is not modelled. `postTo` is an append to the log, `add` an append to the registry, and `_bindTo` an append to the bindings.
- `Object.assign` in the `version` getter makes a defensive copy. Datatype values are immutable, so returning the field is the same observation.
- Calling `newCommFor` with no argument at all throws a `TypeError` while destructuring `undefined`. The model always receives a `CommRequest`, in which absent properties are `Undefined`.
- `Run` continues after a failing call, as a caller catching the error would.
- `Run` models a caller that awaits each `display` before its next call. In the source, `display` posts inside a `.then` callback even when the content is returned directly, so `display(m); print("x")` without an await posts the print event first. Pending displays that settle after later synchronous calls, and ordering between concurrent `display` calls, are not modelled.
