# AVM ABI decoder and transaction result, in Dafny

This project models two parts of the Aion Virtual Machine (AVM):

- **The ABI decoder (`ABIDecoder`).** It turns a transaction's data into a call on the main class of a contract (a "Dapp"). The data is laid out as `name<descriptors>arguments`. `name` is the method to call. `descriptors` is a run of argument descriptors:
  - `T`: a scalar;
  - `[Tn]`: a 1-D array;
  - `[[Tm]n]`: a rectangular 2-D array;
  - `[[T]n](k1)...(kn)`: a jagged 2-D array.

  `T` is one character naming an elementary ABI type. `arguments` holds the encoded values, one after another.

  The decoder does four things:
  - reads the descriptors;
  - decodes one value per descriptor;
  - picks the public method whose parameter types match the descriptors;
  - converts the decoded values to those parameter types (unboxing primitives) before the reflective call.

  A contract's methods carry the prefix `avm_` after the shadowing transformation, so `decodeAndRun` looks up `avm_` + name.
- **`AvmTransactionResult`.** This is the record of one transaction's execution: its result code, return data, energy accounting, uncaught exception and kernel. It comes with the closed set of result codes and their three kinds: success, rejected and failed.

## Structure

The model follows the Java code.

| Module | File | What it models |
|---|---|---|
| `Base` | `base.dfy` | `byte`, `Option` (a nullable reference), `Result` (a value or the Java exception raised instead), and the one-byte-per-character view of a byte array. |
| `JavaStrings` | `java_strings.dfy` | `String.indexOf`, `startsWith`, `endsWith` and `Integer.parseInt`, with their edge cases: -1 for "not found", sign handling, and the 32-bit overflow check made after each digit. Also `Decimal`, the decimal notation of a natural number. |
| `ABITypes` | `abi_types.dfy` | What the decoder asks of `ABIEncoder.ABITypes`. This is a `Registry` of three things: the type a descriptor character names, the Java parameter types it binds to, and the type's own scalar decoder. |
| `Descriptors` | `descriptors.dfy` | `readNumberFromDescriptor` and `readOneDescriptor`. The decoder's loop over the descriptor text appears as the function `ReadDescriptors`. |
| `DescriptorText` | `descriptor_text.dfy` | How each shape is written as descriptor text, and the proof that `readOneDescriptor` and its loop read every written shape back. |
| `Payload` | `payload.dfy` | `decode`, `decodeArguments`, `decodeOneObject`, `decodeArgumentsWithDescriptor`, `decodeOneObjectWithDescriptor`, `decode1DArray` and `decode2DArray`. |
| `Selector` | `selector.dfy` | `matchMethodSelector`; the proof that it accepts exactly the methods whose parameters fit the written shapes one by one. |
| `Dispatch` | `dispatch.dfy` | `convertArguments`, and `decodeAndRun` up to the reflective call. |
| `TransactionResult` | `transaction_result.dfy` | The `Code` enum and the `AvmTransactionResult` class. Energy uses 64-bit two's-complement arithmetic. |

### How the model is written

- **Methods and functions.** Each Java method that loops or fills an array is a Dafny `method`, written the way the Java is written. It is proved equal to a specification function over the same inputs, for example `Payload.Decode` against `Payload.CallOf` and `Selector.MatchMethodSelector` against `Selector.SelectorOf`. The properties are proved as lemmas about those functions.
- **Errors.** Any Java exception is an `Err` of the kind raised: `InvalidTxDataException`, an index out of bounds, a negative array size, or a null dereference. No malformed input is excluded by a precondition: the empty data, unbalanced markers, malformed numbers, a jagged array of zero rows, and negative sizes all take the error path the code takes. The preconditions that remain are the registry assumption described under Left out, and the facts the Java callers already guarantee: a start index within the text, and an array decoder called only for its own dimension.
- **The transaction result.** `AvmTransactionResult` is a Dafny `class` with the same fields. `energyLimit` is a `const`. Every setter says exactly which field it changes. The invariant `energyUsed + energyRemaining == energyLimit`, stated in the class's own comment, is `Valid()`, computed in Java's `long` arithmetic (so it holds even on overflow). The constructor establishes it and every method keeps it.

### Behaviour of the code that the model keeps

- **Scalar size.** A scalar descriptor is built with the three-argument `Descriptor` constructor (`ABIDecoder.java:282`), so its `size` stays at Java's default 0 (`Descriptors.Descriptor.Size`).
- **`name<>`.** The data `name<>` gives the descriptor `""`; `decodeArgumentsWithDescriptor` then reads no descriptor and answers null (`ABIDecoder.java:222-230`), so the call carries an empty descriptor and a null argument list (`Payload.CallOfEmptyDescriptor`).

## Model

| member | source | states |
|---|---|---|
| Descriptors.ReadNumberFromDescriptor | org.aion.avm.rt/src/org/aion/avm/api/ABIDecoder.java:289-309 | every failure is InvalidTxData; on success the stop index is at or after the start, inside the text, and holds the stop character |
| Descriptors.ReadNumberCharacterized | org.aion.avm.rt/src/org/aion/avm/api/ABIDecoder.java:289-309 | fails exactly when no stop character follows the start index or the text before the first one is neither empty nor a valid int; otherwise answers that first stop index and that int (0 for empty text) |
| Descriptors.ParseDescriptor | org.aion.avm.rt/src/org/aion/avm/api/ABIDecoder.java:251-284 | a descriptor read successfully consumes at least one character and no more than the text holds |
| Descriptors.ReadOneDescriptor | org.aion.avm.rt/src/org/aion/avm/api/ABIDecoder.java:251-284 | readOneDescriptor, as the Java runs it, answers the descriptor grammar applied to the text from its start index on, errors included |
| Descriptors.Read2DDescriptor | org.aion.avm.rt/src/org/aion/avm/api/ABIDecoder.java:254-274 | the "[[" branch reads m from index 3 and n after the first ']': a negative n fails when the row array is allocated; m = 0 selects the jagged form, any other m gives n rows of m |
| Descriptors.FillRowSizes | org.aion.avm.rt/src/org/aion/avm/api/ABIDecoder.java:270 | every row size becomes m |
| Descriptors.ReadJaggedRowSizes | org.aion.avm.rt/src/org/aion/avm/api/ABIDecoder.java:260-268 | the row-size array holds the numbers of the "(k)" groups, each read two characters past the previous stop index, and the answer is the index of the last ')'; an array of zero rows fails only after the first group is read; a bad group fails with the error of the first bad read |
| Descriptors.Parse2D | org.aion.avm.rt/src/org/aion/avm/api/ABIDecoder.java:254-274 | a successful 2-D read is a 2-D shape that consumes at least one character |
| Descriptors.RowsFrom | org.aion.avm.rt/src/org/aion/avm/api/ABIDecoder.java:262-267 | k row sizes are read, every failure is InvalidTxData, and after at least one row the last stop index holds ')' |
| Descriptors.JaggedRows | org.aion.avm.rt/src/org/aion/avm/api/ABIDecoder.java:260-268 | the jagged branch succeeds only for at least one row, with one size per row and the last ')' after the row count |
| Descriptors.Repeat | org.aion.avm.rt/src/org/aion/avm/api/ABIDecoder.java:270 | n entries, each equal to v |
| Descriptors.Parse1DStep | org.aion.avm.rt/src/org/aion/avm/api/ABIDecoder.java:275-279 | "[Tn]": type from index 1, size read from index 2 up to the first ']', text consumed up to and including that ']' |
| Descriptors.ParseRectangularStep | org.aion.avm.rt/src/org/aion/avm/api/ABIDecoder.java:254-273 | "[[Tm]n]" with m != 0: type from index 2, n rows of m, text consumed up to the second ']' |
| Descriptors.ParseJaggedStep | org.aion.avm.rt/src/org/aion/avm/api/ABIDecoder.java:254-273 | "[[T]n](k1)...": the row sizes read from the groups, text consumed up to the last ')' |
| Descriptors.ReadDescriptorsStep | org.aion.avm.rt/src/org/aion/avm/api/ABIDecoder.java:221-226 | one turn of the descriptor loop adds the descriptor read at the current index and moves on by its encoded length |
| Descriptors.ReadDescriptorsTile | org.aion.avm.rt/src/org/aion/avm/api/ABIDecoder.java:221-226 | the descriptors the loop reads tile the rest of the text exactly, and there are no more of them than characters |
| JavaStrings.IndexOf | org.aion.avm.rt/src/org/aion/avm/api/ABIDecoder.java:291 | String.indexOf(ch, from) is -1 or an index at or after `from` that holds `ch` |
| JavaStrings.IndexOfFirst | org.aion.avm.rt/src/org/aion/avm/api/ABIDecoder.java:291 | indexOf is -1 exactly when no `ch` follows `from`; otherwise it is the first such index |
| JavaStrings.ParseIntDecimal | org.aion.avm.rt/src/org/aion/avm/api/ABIDecoder.java:301 | Integer.parseInt reads back the decimal notation of every int-sized natural number |
| JavaStrings.ParseIntNegative | org.aion.avm.rt/src/org/aion/avm/api/ABIDecoder.java:301 | Integer.parseInt reads "-" followed by the notation of n as -n, within the int range |
| DescriptorText.DescriptorsOf | org.aion.avm.rt/src/org/aion/avm/api/ABIDecoder.java:221-226 | the descriptors expected for a run of shapes: one per shape, in order, each with the shape's type, sizes and text length |
| DescriptorText.ParseRendered | org.aion.avm.rt/src/org/aion/avm/api/ABIDecoder.java:251-284 | readOneDescriptor reads every well-formed shape back, with its type, its sizes and the exact length of its text, from any text that begins with the shape's rendering |
| DescriptorText.ParseRenderedRectangular | org.aion.avm.rt/src/org/aion/avm/api/ABIDecoder.java:254-273 | "[[Tm]n]" reads back as n rows of m |
| DescriptorText.ParseRenderedJagged | org.aion.avm.rt/src/org/aion/avm/api/ABIDecoder.java:254-273 | "[[T]n](k1)...(kn)" reads back as the rows k1..kn |
| DescriptorText.ReadDescriptorsRendered | org.aion.avm.rt/src/org/aion/avm/api/ABIDecoder.java:218-229 | the descriptor loop reads a rendered run of shapes back as one descriptor per shape, in order |
| DescriptorText.ExampleJagged | org.aion.avm.rt/src/org/aion/avm/api/ABIDecoder.java:260-268 | "[[i]2](1)(4)" reads as rows of 1 and 4 elements, 12 characters long |
| DescriptorText.ExampleRectangular | org.aion.avm.rt/src/org/aion/avm/api/ABIDecoder.java:269-272 | "[[i3]2]" reads as two rows of 3, 7 characters long |
| DescriptorText.Example1D | org.aion.avm.rt/src/org/aion/avm/api/ABIDecoder.java:275-279 | "[i3]" reads as a 1-D array of 3, 4 characters long |
| Payload.ElementsAt | org.aion.avm.rt/src/org/aion/avm/api/ABIDecoder.java:329-339 | n elements decoded back to back give exactly n values |
| Payload.RowAt | org.aion.avm.rt/src/org/aion/avm/api/ABIDecoder.java:329-339 | a row with a negative size fails as a negative array size; otherwise it holds exactly its size of elements |
| Payload.RowsAt | org.aion.avm.rt/src/org/aion/avm/api/ABIDecoder.java:344-354 | the rows of a 2-D array: one per row size, each exactly as long as its size |
| Payload.ValuesAt | org.aion.avm.rt/src/org/aion/avm/api/ABIDecoder.java:233-241 | one value per descriptor |
| Payload.DecodeOneObjectWithDescriptor | org.aion.avm.rt/src/org/aion/avm/api/ABIDecoder.java:314-324 | dimension 0 is the type's own decoder, dimensions 1 and 2 the array decoders, each from the given offset |
| Payload.Decode1DArray | org.aion.avm.rt/src/org/aion/avm/api/ABIDecoder.java:329-339 | allocates the buffer (a negative size fails) and fills it with the elements decoded one after the other, ending where the last one ends; the first failing element's error is the result |
| Payload.Decode2DArray | org.aion.avm.rt/src/org/aion/avm/api/ABIDecoder.java:344-354 | each row decoded as a 1-D array of its own size, starting where the previous row ended; the first failing row's error is the result |
| Payload.DecodeArgumentsWithDescriptor | org.aion.avm.rt/src/org/aion/avm/api/ABIDecoder.java:218-244 | reads descriptors until the text is used up, answers null when there are none, and otherwise decodes one value per descriptor from offset 0, threading the offset |
| Payload.Decode | org.aion.avm.rt/src/org/aion/avm/api/ABIDecoder.java:176-199 | decode as the Java runs it: null for null or empty data, a call without arguments when there is neither '<' nor '>', InvalidTxData for exactly one of them, an index error when '>' comes first, otherwise name, descriptor and arguments split at the first '<' and the first '>' |
| Payload.DecodeOneObject | org.aion.avm.rt/src/org/aion/avm/api/ABIDecoder.java:207-210 | one descriptor at the head of the data, then its value decoded from the byte after the descriptor |
| Payload.ArgumentsFrom | org.aion.avm.rt/src/org/aion/avm/api/ABIDecoder.java:202-204 | decodeArguments dereferences decode's answer: null or empty data is a null dereference; otherwise it is the decoded call's arguments |
| Payload.ElementsFailurePersists | org.aion.avm.rt/src/org/aion/avm/api/ABIDecoder.java:329-339 | once an element fails to decode, decoding more elements fails the same way |
| Payload.ValuesFailurePersists | org.aion.avm.rt/src/org/aion/avm/api/ABIDecoder.java:233-241 | once an argument fails to decode, decoding the whole list fails the same way |
| Payload.ElementsSplit | org.aion.avm.rt/src/org/aion/avm/api/ABIDecoder.java:329-339 | decoding a + b elements is decoding a and then b more from where the first a ended |
| Payload.RowsAsElements | org.aion.avm.rt/src/org/aion/avm/api/ABIDecoder.java:344-354 | a 2-D array with non-negative row sizes reads the same elements, from the same bytes to the same end, as a flat array of their total |
| Payload.CallOfAbsent | org.aion.avm.rt/src/org/aion/avm/api/ABIDecoder.java:177-179 | null and empty data decode to null |
| Payload.CallOfWithoutDescriptor | org.aion.avm.rt/src/org/aion/avm/api/ABIDecoder.java:184-187 | non-empty data decodes as the name alone, with no descriptor and no arguments, exactly when it holds neither '<' nor '>' |
| Payload.CallOfUnbalanced | org.aion.avm.rt/src/org/aion/avm/api/ABIDecoder.java:188-190 | data that holds one of '<' and '>' but not the other is InvalidTxData |
| Payload.CallOfCrossed | org.aion.avm.rt/src/org/aion/avm/api/ABIDecoder.java:192-193 | a '>' before every '<' makes substring fail with an index error |
| Payload.CallOfHeader | org.aion.avm.rt/src/org/aion/avm/api/ABIDecoder.java:192-198 | with the first '<' before the first '>', the name precedes the '<', the descriptor lies between the two, and the arguments are decoded from the byte after the '>' |
| Payload.CallOfEncoded | org.aion.avm.rt/src/org/aion/avm/api/ABIDecoder.java:176-199 | decode reads back a payload laid out as name, '<', rendered descriptors, '>', argument data: the same name and descriptor, and one value per shape, decoded from the first byte of the argument data |
| Payload.CallOfEmptyDescriptor | org.aion.avm.rt/src/org/aion/avm/api/ABIDecoder.java:192-198 | "name<>" gives the empty descriptor and a null argument list |
| Payload.ArgumentsRendered | org.aion.avm.rt/src/org/aion/avm/api/ABIDecoder.java:218-244 | a non-empty rendered descriptor run gives one value per shape, decoded from offset 0 |
| Payload.OneObjectRendered | org.aion.avm.rt/src/org/aion/avm/api/ABIDecoder.java:207-210 | decodeOneObject reads a rendered shape and then its value from the byte just after the shape's text |
| Selector.Step | org.aion.avm.rt/src/org/aion/avm/api/ABIDecoder.java:384-419 | a parameter accepted by one turn of the matching loop leaves the index no further than the end of the descriptor (back at 0 when a closing ']' is missing, as indexOf + 1 gives), and no parameter is accepted at a '(' |
| Selector.SkipGroups | org.aion.avm.rt/src/org/aion/avm/api/ABIDecoder.java:391-393 | skipping the row groups stops inside the text or at its end, and never on a '(' |
| Selector.MatchOneDescriptor | org.aion.avm.rt/src/org/aion/avm/api/ABIDecoder.java:384-419 | one turn of the matching loop, with the inner loop over the "(k)" groups, as the Java runs it, equals the matching step |
| Selector.MatchMethodSelector | org.aion.avm.rt/src/org/aion/avm/api/ABIDecoder.java:359-430 | the selector as the Java runs it: the first method with the requested name decides; no parameters match only a null or empty descriptor; otherwise the parameters and the descriptors are read in lock step, and must run out together |
| Selector.SelectorOf | org.aion.avm.rt/src/org/aion/avm/api/ABIDecoder.java:359-430 | a selected method is one of the class's methods and has the requested name |
| Selector.SelectorFirstNamed | org.aion.avm.rt/src/org/aion/avm/api/ABIDecoder.java:361-427 | only the first method with the requested name is considered: it is selected when its parameters match, and otherwise nothing is, even when a later overload would match |
| Selector.SelectorUnnamed | org.aion.avm.rt/src/org/aion/avm/api/ABIDecoder.java:359-430 | when no method has the requested name, nothing is selected |
| Selector.StepRendered | org.aion.avm.rt/src/org/aion/avm/api/ABIDecoder.java:384-419 | against a rendered shape, one matching turn accepts exactly the parameter types the shape fits (a type identifier, a wrapper class exactly for arrays, a "2D" name exactly for 2-D arrays) and moves past the whole shape |
| Selector.MatchFromRendered | org.aion.avm.rt/src/org/aion/avm/api/ABIDecoder.java:379-424 | from any point in a rendered run of shapes, the matching loop accepts exactly when the parameters left and the shapes left are as many and fit one by one |
| Selector.ParamsMatchRendered | org.aion.avm.rt/src/org/aion/avm/api/ABIDecoder.java:364-426 | a method matches a rendered descriptor run exactly when it has one parameter per shape and each parameter fits its shape (and, for an empty run, when it has no parameters) |
| Dispatch.Converted | org.aion.avm.rt/src/org/aion/avm/api/ABIDecoder.java:440-481 | null exactly when the counts differ; otherwise one entry per argument, each the same value, unboxed exactly when its parameter type is one of the eight Java primitives |
| Dispatch.ConvertArguments | org.aion.avm.rt/src/org/aion/avm/api/ABIDecoder.java:440-481 | the list rewritten entry by entry as the Java does it is that conversion |
| Dispatch.InvocationOf | org.aion.avm.rt/src/org/aion/avm/api/ABIDecoder.java:140-160 | null or empty data is a null dereference; a call that goes ahead is to a method of the class named "avm_" + the decoded name that the selector picks, on the instance exactly when the method is not static, with the converted arguments, as many as its parameters |
| Dispatch.InvocationUnknown | org.aion.avm.rt/src/org/aion/avm/api/ABIDecoder.java:143-151 | a name no "avm_" method has leads to a null dereference, whatever the arguments |
| Dispatch.InvocationWithoutArguments | org.aion.avm.rt/src/org/aion/avm/api/ABIDecoder.java:140-157 | a payload of a bare name calls the first "avm_" method of that name with no arguments when it takes none, and is a null dereference otherwise |
| Dispatch.InvocationEncoded | org.aion.avm.rt/src/org/aion/avm/api/ABIDecoder.java:140-160 | an encoded payload calls the first "avm_" method of its name when its parameters fit the shapes one by one, with the decoded values converted to its parameter types; otherwise it is a null dereference, and a failing argument decode fails the call |
| TransactionResult.AddSub | org.aion.avm.core/src/org/aion/kernel/AvmTransactionResult.java:158-163 | in long arithmetic, used + (limit - used) == limit for every limit and every amount used, overflow or not |
| TransactionResult.SubInRange | org.aion.avm.core/src/org/aion/kernel/AvmTransactionResult.java:177 | when 0 <= used <= limit, the remaining energy is the plain difference and lies between 0 and the limit |
| TransactionResult.Code.IsRevert | org.aion.avm.core/src/org/aion/kernel/AvmTransactionResult.java:114-118 | no code is a REVERT |
| TransactionResult.Code.IsFatal | org.aion.avm.core/src/org/aion/kernel/AvmTransactionResult.java:120-124 | no code is fatal |
| TransactionResult.Code.ToInt | org.aion.avm.core/src/org/aion/kernel/AvmTransactionResult.java:126-129 | every id lies between 200 and 213 |
| TransactionResult.ExactlyOneKind | org.aion.avm.core/src/org/aion/kernel/AvmTransactionResult.java:99-112 | every code is exactly one of success, rejected and failed |
| TransactionResult.KindByValue | org.aion.avm.core/src/org/aion/kernel/AvmTransactionResult.java:20-89 | success is exactly id 200, rejection exactly ids 201 to 203, failure exactly ids 204 to 213 |
| TransactionResult.ToIntInjective | org.aion.avm.core/src/org/aion/kernel/AvmTransactionResult.java:20-89 | different codes have different ids |
| TransactionResult.AllCodesNumbered | org.aion.avm.core/src/org/aion/kernel/AvmTransactionResult.java:20-89 | the 14 codes, in declaration order, have the ids 200, 201, ... 213, and every code is among them |
| TransactionResult.AvmTransactionResult.constructor | org.aion.avm.core/src/org/aion/kernel/AvmTransactionResult.java:173-178 | a SUCCESS result with the given limit and amount used, remaining = limit - used in long arithmetic, other references null, and the energy invariant holds |
| TransactionResult.AvmTransactionResult.GetResultCode | org.aion.avm.core/src/org/aion/kernel/AvmTransactionResult.java:180-183 | answers the result code |
| TransactionResult.AvmTransactionResult.SetResultCode | org.aion.avm.core/src/org/aion/kernel/AvmTransactionResult.java:185-188 | changes the result code only, to the one given |
| TransactionResult.AvmTransactionResult.GetReturnData | org.aion.avm.core/src/org/aion/kernel/AvmTransactionResult.java:190-193 | answers the return data |
| TransactionResult.AvmTransactionResult.SetReturnData | org.aion.avm.core/src/org/aion/kernel/AvmTransactionResult.java:195-198 | changes the return data only, to the data given |
| TransactionResult.AvmTransactionResult.GetEnergyRemaining | org.aion.avm.core/src/org/aion/kernel/AvmTransactionResult.java:200-203 | answers the remaining energy, which with the energy used makes up the limit |
| TransactionResult.AvmTransactionResult.SetEnergyRemaining | org.aion.avm.core/src/org/aion/kernel/AvmTransactionResult.java:205-210 | always fails as unimplemented and changes nothing |
| TransactionResult.AvmTransactionResult.GetEnergyUsed | org.aion.avm.core/src/org/aion/kernel/AvmTransactionResult.java:212-214 | answers the energy used, which with the remaining energy makes up the limit |
| TransactionResult.AvmTransactionResult.SetEnergyUsed | org.aion.avm.core/src/org/aion/kernel/AvmTransactionResult.java:216-219 | sets the energy used and derives the remaining energy from it, under the unchanged limit; the energy invariant is kept |
| TransactionResult.AvmTransactionResult.GetUncaughtException | org.aion.avm.core/src/org/aion/kernel/AvmTransactionResult.java:221-223 | answers the uncaught exception |
| TransactionResult.AvmTransactionResult.SetUncaughtException | org.aion.avm.core/src/org/aion/kernel/AvmTransactionResult.java:225-227 | changes the uncaught exception only |
| TransactionResult.AvmTransactionResult.SetKernelInterface | org.aion.avm.core/src/org/aion/kernel/AvmTransactionResult.java:229-232 | changes the kernel only |
| TransactionResult.AvmTransactionResult.GetKernelInterface | org.aion.avm.core/src/org/aion/kernel/AvmTransactionResult.java:234-237 | answers the kernel |
| TransactionResult.AvmTransactionResult.ToBytes | org.aion.avm.core/src/org/aion/kernel/AvmTransactionResult.java:248-251 | always fails: a result has no byte form |

## Left out

- **The elementary ABI types.** `ABIEncoder`, its type table (`mapABITypes`, `identifiers`) and each type's byte layout are not part of this model. The decoder reaches them through the `Registry`, which treats them as given functions. The round trips are stated over whatever those functions compute.
- **The `MarkersReserved` assumption.** Every lemma assumes that the structural characters `[ ] ( ) < >` name types with no parameter-type identifiers. `ABIEncoder` is not part of this model, so this cannot be checked. Without it, a descriptor starting with `(` could be accepted as a scalar, and the group-skipping loop of `matchMethodSelector` could go round forever (`indexOf` + 1 == 0).
- **Byte and character widths.** Bytes and characters are one-to-one: `new String(bytes)` and `getBytes()` are modelled for single-byte characters only. This is what the decoder's comment on `readOneDescriptor` promises. Multi-byte UTF-8 is not modelled.
- **The reflective call.** `Method.invoke` itself, the contract code it runs, the wrapping of `InvocationTargetException` and `IllegalAccessException`, and the encoding of the return value (`ABIEncoder.encodeOneObject`) are left out. `Dispatch.InvocationOf` stops at the call it would make.
- **Class reflection.** `Class.getMethods()` is a list of `JavaMethod` values giving each method's name, whether it is static, and its parameter type names.
- Dispatch.ConvertArguments: does not model the `ClassCastException` raised when an argument is not the expected shadow box, or the primitive value produced by unboxing (`Value` is abstract; an entry is only marked unboxed).
- **Decoded values.** The runtime keeps a native and a wrapped (shadow) form of each decoded value. Both are built from the same elements, so one structural `Value` stands for the pair.
- **Argument arrays.** Argument arrays (`IObject[]`, `Object[]`) are sequences, and the decoders' buffers are Dafny arrays. Aliasing between them is not modelled.
- **The `avm_*` wrappers.** The wrappers `avm_decodeAndRun`, `avm_decode`, `avm_decodeArguments` and `avm_decodeOneObject` only convert between `byte[]` and `ByteArray`. Their underlying methods are modelled instead.
- **A null `decodeOneObject` argument.** `decodeOneObject` on null data (a null dereference) is not modelled: its data is a sequence.
- **A negative `readOneDescriptor` start index.** The decoder's loop never passes one.
- TransactionResult.AvmTransactionResult.SetResultCode: the code is a `Code`, never null; other implementations of the `ResultCode` interface, and a null code (after which `getResultCode` answers null), are not modelled.
- **`toString`.** `AvmTransactionResult.toString` is text formatting and is left out.
- **`Throwable` and `KernelInterface`.** These are opaque types.
