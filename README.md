# vga-playground core, modelled in Dafny

This project models the simulation core of vga-playground, a VS Code
extension that previews VGA designs written in Verilog. It models these parts:

- **The RTL simulation kernel** (`HDLModuleJS`).
  - It holds a signal table (`state`) and the variable definitions (`globals`).
  - It allocates each variable's default value, typed arrays included.
  - It lowers the elaborated design tree into per-block code (`expr2js`, `expr2reset`, `genFuncs`).
  - It drives the table through power cycling and evaluation. Both use a settle loop bounded at 100 rounds.
  - It toggles the clock (`tick`, `tick2`), latches `$finish` and `$stop`, and implements `$readmem`.
  - It saves and loads its state.
- **The XML reader** the kernel's design tree arrives through. It decodes entities and walks tags with an explicit stack of open elements.
- **The copy helpers** `byteArrayToString` and `safeExtend`.
- **The TypeScript simulator** (`VerilogSimulator`). It runs an 800 x 525 raster counter state machine and re-evaluates assignments per pixel. It also has always blocks that advance a 10-bit counter.
- **The closed-form fallback** of the WASM simulator (`fallbackSimulate`, `fallbackGetFrame`, `fallbackCompile`, `updateCounter`).
- **The string-level Verilog helpers.**
  - The expression evaluator: concatenation packing, bit selects and sized literals.
  - The line scanner: bit widths, ports, assignments, always blocks and module instantiations.
- **The webview preview's integer patterns.** Stripes, checkers, Conway cells, `setPixel`, pattern detection and the example slugs.

## How it is modelled

- **JavaScript numbers.**
  - Numbers are unbounded integers plus NaN (`JsValues.Number`).
  - The 32-bit operators (`& | ^ ~ << >> >>>`) are written out in `JsInt` with explicit two's-complement wrap-around.
  - Typed-array stores reduce modulo 2^8, 2^16 or 2^32. `Uint8ClampedArray` stores clamp.
- **Typed arrays** are Dafny arrays.
- **Plain arrays and dictionaries** are classes (`JsList`, `JsObject`) whose `seq`/`map` field is reassigned.
- **Lowering produces a tree, not program text.** `expr2js` yields a `Code` tree with one constructor per code template. A small evaluator (`HdlLower.EvalCode`) gives the integer fragment of that code a meaning.
- **Compiled blocks are opaque functions.** The kernel does not run generated code. It holds `_ctor_var_reset`, `_eval_initial`, `_eval_settle`, `_eval` and `_change_request` as functions over the signal table (`HdlRuntime.Behaviour`).
- **Regular expressions are shape predicates.** Each one is modelled as an explicit scanner with the same leftmost/greedy choices. Lemmas then state the shapes the scanners accept.
- **Mutable objects are classes.** The kernel module, both simulators and the preview are classes. Their methods are proved against specification functions (`Settle`, `Tick2Spec`, `TimingStep`, `Cycles`, `FrameByte`, `ScanLines`, `ParseSpec`, ...). The properties are proved about those functions.

## Model

| member | source | states |
|---|---|---|
| SimUtil.CharsOfBytes | vscode-extension/media/sim/util.js:4-17 | for byte data the string has one character per byte, and character i has code data[i] |
| SimUtil.ByteArrayToString | vscode-extension/media/sim/util.js:4-17 | null gives ""; otherwise the loop builds the pieces of all elements in order, so bytes give a string of the same length with codes data[i] |
| SimUtil.SafeExtend | vscode-extension/media/sim/util.js:20-45 | returns dest; keys of dest not in src, and keys whose src value is a function or an object without slice, keep their values; primitives, null and undefined are copied as they are; arrays arrive as fresh copies with equal contents |
| SimUtil.SaveThenLoad | vscode-extension/media/sim/util.js:20-45 | extending a fresh table from src and then dst from that copy gives dst every primitive of src unchanged and every array as a fresh copy with equal contents |
| SimUtil.CopyEntry | vscode-extension/media/sim/util.js:24-43 | one key of safeExtend: functions and plain objects skipped, primitives copied, arrays sliced into fresh objects |
| JsValues.StoreElem | vscode-extension/media/sim/hdlruntime.js:151-156 | a typed-array element store yields a value in 0 .. 2^bits - 1, keeps an in-range integer, and stores NaN as 0 |
| HdlLower.LowerCountsConstReads | vscode-extension/media/sim/hdlruntime.js:194-330 | lowering any tree keeps the constants and module variables, and raises the constants-used count by exactly the number of constant reads in the tree |
| HdlLower.LeafCountsConstReads | vscode-extension/media/sim/hdlruntime.js:195-233 | the same count for the leaves: null, references, declarations and constants |
| HdlLower.TriopCountsConstReads | vscode-extension/media/sim/hdlruntime.js:234-247 | the same count for `if`, `cond` and `condbound` |
| HdlLower.BinopCountsConstReads | vscode-extension/media/sim/hdlruntime.js:248-276 | the same count for assignments, selections, change detection and the operator table |
| HdlLower.WhileCountsConstReads | vscode-extension/media/sim/hdlruntime.js:314-316 | the same count for a while loop's four parts |
| HdlLower.LowerListCountsConstReads | vscode-extension/media/sim/hdlruntime.js:299-313 | the same count for a list of expressions lowered left to right |
| HdlLower.LowerResetKeepsCount | vscode-extension/media/sim/hdlruntime.js:331-358 | a reset substitutes no constant and keeps the translator's constants and module variables |
| HdlLower.VarRefResolution | vscode-extension/media/sim/hdlruntime.js:198-211 | a reference resolves to a known constant only outside a store (and then counts one use), else to a local, else to a module variable, else fails with "cannot find variable" |
| HdlLower.AssignStoresIntoRight | vscode-extension/media/sim/hdlruntime.js:250-255 | an assignment stores into its right operand, lowered as a store target, so a variable stored to is never replaced by a constant |
| HdlLower.UnknownOperatorsFail | vscode-extension/media/sim/hdlruntime.js:245-329 | an unknown triop, binop or unop, or an unrecognised node, is an error |
| HdlLower.RelationalForm | vscode-extension/media/sim/hdlruntime.js:264-275 | a comparison takes the 0/1 form outside a condition and the plain form inside one, in both directions |
| HdlLower.ComparisonIsZeroOne | vscode-extension/media/sim/hdlruntime.js:264-275 | outside a condition a lowered comparison evaluates to 1 or 0 |
| HdlLower.ExtendsSignExtends | vscode-extension/media/sim/hdlruntime.js:290-292 | `extends` turns a w-bit value into the two's-complement number its bits stand for |
| HdlLower.NotComplements | vscode-extension/media/sim/hdlruntime.js:285-287 | `not` complements all 32 bits of its operand |
| HdlLower.DeclWithConstant | vscode-extension/media/sim/hdlruntime.js:212-217 | a declaration with a constant value declares a local initialised to that value (corrected; see Findings) |
| HdlLower.DeclWithConstantAsWritten | vscode-extension/media/sim/hdlruntime.js:215-216 | as written, every declaration carrying a constant value is an error |
| HdlLower.GenFuncs | vscode-extension/media/sim/hdlruntime.js:53-77 | the loop over the blocks computes exactly the function table `GenSpec` describes |
| HdlLower.CompiledWhenConstantUsed | vscode-extension/media/sim/hdlruntime.js:57-62 | a block is kept exactly when there are no constants or its lowering read one |
| HdlLower.GenSpecKeys | vscode-extension/media/sim/hdlruntime.js:53-77 | the compiled table keeps the base entries, holds the key of every kept block (every block when there are no constants), and gains no other key |
| HdlRuntime.ArrayLength | vscode-extension/media/sim/hdlruntime.js:148-150 | an array declared [high:low] has abs(high - low) + 1 >= 1 elements, in either order (corrected; see Findings) |
| HdlRuntime.ArrayLengthAsWrittenShort | vscode-extension/media/sim/hdlruntime.js:148-150 | as written, [0:3] gets 2 elements instead of 4 and [0:1] none |
| HdlRuntime.ArrayLengthAgrees | vscode-extension/media/sim/hdlruntime.js:148-150 | as written and corrected agree whenever high >= low |
| HdlRuntime.StoreAt | vscode-extension/media/sim/hdlruntime.js:168-178 | an initialiser entry replaces the element at its index; a typed array ignores indices outside it; a plain array grows with holes past its end; nothing else changes |
| HdlRuntime.ApplyInit | vscode-extension/media/sim/hdlruntime.js:168-178 | the initialiser fails with the non-constant error exactly when some entry is not a constant array item; it keeps the kind of array |
| HdlRuntime.InitTyped | vscode-extension/media/sim/hdlruntime.js:168-178 | the loop writing an initialiser into a typed array succeeds exactly when `ApplyInit` does and leaves the array `ApplyInit` describes |
| HdlRuntime.InitList | vscode-extension/media/sim/hdlruntime.js:168-178 | the same for a plain array: its elements take the shapes `ApplyInit` describes |
| HdlRuntime.StoreList | vscode-extension/media/sim/hdlruntime.js:171-172 | `arr[index] = c` on a plain array gives the elements `StoreAt` describes |
| HdlRuntime.DefaultValue | vscode-extension/media/sim/hdlruntime.js:137-182 | succeeds exactly when `DefaultShape` does, with the same error otherwise: 0 for at most 32 bits, big 0 above, Uint8/16/32 arrays of zeros by element width, an empty plain array for wider elements, a plain array of fresh default elements otherwise, then the initialiser (with the corrected array length; see Findings) |
| HdlRuntime.Settle | vscode-extension/media/sim/hdlruntime.js:93-103 | a settle loop that goes quiet does so at a round index below 100 |
| HdlRuntime.SettleFirstQuiet | vscode-extension/media/sim/hdlruntime.js:93-127 | a settle loop stops at the first round reporting no change, with the table after that round; when all 100 rounds report a change it gives up with the table after 100 rounds |
| HdlRuntime.Tick2Compose | vscode-extension/media/sim/hdlruntime.js:129-136 | m clock pairs followed by n pairs are m + n pairs |
| HdlRuntime.SettleKeepsClock | vscode-extension/media/sim/hdlruntime.js:113-127 | when no round writes clk, a settle loop leaves clk as it found it |
| HdlRuntime.Tick2EndsHigh | vscode-extension/media/sim/hdlruntime.js:129-136 | when no round writes clk, a successful tick2(n) with n > 0 leaves clk = 1 |
| HdlRuntime.ClockFlip | vscode-extension/media/sim/hdlruntime.js:420-423 | `clk ^= 1` gives an int32; it fails on a BigInt, and undefined, null or NaN become 1 |
| HdlRuntime.ClockFlipInverts | vscode-extension/media/sim/hdlruntime.js:420-423 | on an integer clock the flip inverts the lowest bit: 0 becomes 1 and 1 becomes 0 |
| HdlRuntime.Builtins | vscode-extension/media/sim/hdlruntime.js:29-34 | every system task is in the base function table, each under its own name |
| HdlRuntime.HdlModule.constructor | vscode-extension/media/sim/hdlruntime.js:18-28 | a fresh empty signal table, no definitions, the built-ins, both latches clear and settle time 0 |
| HdlRuntime.HdlModule.Init | vscode-extension/media/sim/hdlruntime.js:35-50 | construction succeeds exactly when the pool and the module build; then the definitions are the pool's and the module's, every variable holds its default, other entries are untouched, and the function table is the compiled one (with the corrected array length and declaration lowering; see Findings) |
| HdlRuntime.HdlModule.Build | vscode-extension/media/sim/hdlruntime.js:42-49 | the module's variables get their definitions and defaults, and the blocks are compiled against all the variables; it succeeds exactly when every default exists and every block compiles (with the corrected array length and declaration lowering; see Findings) |
| HdlRuntime.HdlModule.AddPool | vscode-extension/media/sim/hdlruntime.js:36-41 | the constant pool is built as a module of its own and its table and definitions are copied in |
| HdlRuntime.HdlModule.AddDefaults | vscode-extension/media/sim/hdlruntime.js:42-46 | every variable gets its definition and a freshly allocated default value; it succeeds exactly when every definition has a default (with the corrected array length; see Findings) |
| HdlRuntime.HdlModule.AddDefault | vscode-extension/media/sim/hdlruntime.js:44-45 | one variable's default stored under its name, nothing else changed; the error of `DefaultShape` otherwise (with the corrected array length; see Findings) |
| HdlRuntime.HdlModule.Powercycle | vscode-extension/media/sim/hdlruntime.js:88-104 | clears both latches, applies the variable reset and the initial block, then settles with the settle block; the final table and settle time are `Settle`'s, and non-convergence is the on-reset error with the table after 100 rounds |
| HdlRuntime.HdlModule.Eval | vscode-extension/media/sim/hdlruntime.js:105-128 | the table, settle time and success are those of at most 100 rounds of eval and change request, stopping at the first quiet one; failure is the non-convergence error |
| HdlRuntime.HdlModule.Tick2 | vscode-extension/media/sim/hdlruntime.js:129-136 | the outcome is exactly `Tick2Spec`: iters pairs of clk := 0, eval, clk := 1, eval |
| HdlRuntime.HdlModule.Tick | vscode-extension/media/sim/hdlruntime.js:420-423 | flips clk and then evaluates; a flip that throws changes nothing |
| HdlRuntime.HdlModule.Lookup | vscode-extension/media/sim/hdlruntime.js:424-426 | a name in the table reads as its value and any other name as undefined; together with Set, a value set is the value read back |
| HdlRuntime.HdlModule.Set | vscode-extension/media/sim/hdlruntime.js:427-431 | replaces an existing entry; a name not in the table is ignored; no other entry changes |
| HdlRuntime.HdlModule.Finish | vscode-extension/media/sim/hdlruntime.js:361-366 | the finished latch is set and nothing else changes; only power cycling clears it |
| HdlRuntime.HdlModule.Stop | vscode-extension/media/sim/hdlruntime.js:367-372 | the stopped latch is set and nothing else changes; only power cycling clears it |
| HdlRuntime.HdlModule.SaveState | vscode-extension/media/sim/hdlruntime.js:432-434 | a fresh table holding every primitive of the state and a fresh copy of every array |
| HdlRuntime.HdlModule.LoadState | vscode-extension/media/sim/hdlruntime.js:438-440 | every primitive and array of the saved table copied back into the state, other entries untouched |
| HdlRuntime.HdlModule.ReadMem | vscode-extension/media/sim/hdlruntime.js:381-409 | errors in order (no provider, unreadable file, null destination, destination shorter than the data); otherwise exactly the first data.length elements are overwritten with the parsed lines, the rest unchanged; a failure changes nothing |
| HdlRuntime.HdlModule.CopyTyped | vscode-extension/media/sim/hdlruntime.js:407-408 | `memp[i] = data[i]` into a typed array: the prefix stored, the rest unchanged |
| HdlRuntime.HdlModule.CopyList | vscode-extension/media/sim/hdlruntime.js:407-408 | the same into a plain array, its length kept |
| HdlRuntime.HdlModule.FileNameOf | vscode-extension/media/sim/hdlruntime.js:383-392 | the byte loop computes `FileName`: the little-endian bytes of the words, zeros dropped, reversed, as characters |
| HdlRuntime.NonZero | vscode-extension/media/sim/hdlruntime.js:386-388 | keeps every non-zero byte as often as it occurs and drops every zero |
| HdlRuntime.NonZeroAppend | vscode-extension/media/sim/hdlruntime.js:386-388 | dropping zeros commutes with concatenation, so the non-zero bytes keep their order |
| HdlRuntime.Reverse | vscode-extension/media/sim/hdlruntime.js:392 | element i of the result is element n - 1 - i of the input |
| HdlRuntime.MemDataDigits | vscode-extension/media/sim/hdlruntime.js:397-400 | a memory line made only of hex digits (or binary digits) is read as exactly the number those digits denote in base 16 (or 2) |
| HdlRuntime.WordBytesAre | vscode-extension/media/sim/hdlruntime.js:386-388 | the four bytes of a word are its successive 8-bit fields, least significant first |
| HdlRuntime.UnpackPack | vscode-extension/media/sim/hdlruntime.js:386-388 | unpacking four packed bytes gives them back |
| HdlRuntime.NameBytesPackAll | vscode-extension/media/sim/hdlruntime.js:383-390 | the bytes of packed words are the bytes packed |
| HdlRuntime.FileNameRoundTrip | vscode-extension/media/sim/hdlruntime.js:383-392 | a name without NUL characters, packed the way a wide Verilog string holds it, decodes to itself |
| Xml.Entity | vscode-extension/media/sim/xml.js:7-19 | each of the five entity references starts with '&', ends with ';' and holds no other '&' |
| Xml.EscapeXMLPlain | vscode-extension/media/sim/xml.js:8-18 | a string without '&' is returned unchanged |
| Xml.EscapeXMLRoundTrip | vscode-extension/media/sim/xml.js:7-19 | decoding undoes encoding every special character as its entity (XML 1.0, section 4.6) |
| Xml.TagMatch | vscode-extension/media/sim/xml.js:21 | a tag match consumes input and yields a non-empty name of `[?a-z_-]` characters and attribute text without '>' |
| Xml.NextToken | vscode-extension/media/sim/xml.js:21-52 | there is no further token exactly when only '<' characters remain; text tokens are non-empty and hold no '<'; each token consumes input |
| Xml.AttrMatch | vscode-extension/media/sim/xml.js:22 | an attribute match consumes input and yields a non-empty word name |
| Xml.ParseAttrs | vscode-extension/media/sim/xml.js:37-46 | the loop enters each attribute's decoded value under its name, left to right, as `AttrsFrom` describes |
| Xml.CloseTop | vscode-extension/media/sim/xml.js:26-36 | closing pops an element of the same name and appends it to the new innermost element's children; a mismatch or an empty stack is the mismatch error, popping the outermost element the close-without-open error |
| Xml.OpenNode | vscode-extension/media/sim/xml.js:53-61 | an open tag makes an element with its name, its parsed attributes, no children and no text |
| Xml.StepEffects | vscode-extension/media/sim/xml.js:47-72 | an open tag pushes its element; a self-closing tag opens and closes it at once; a close tag pops one; text fails exactly when nothing is open, and otherwise sets the innermost element's text when any is left after trimming |
| Xml.Finish | vscode-extension/media/sim/xml.js:73-79 | the end succeeds exactly when one element, named ?xml, is open and some element was closed; the result is that last closed element |
| Xml.ParseXMLPoorly | vscode-extension/media/sim/xml.js:20-80 | the tag loop with its explicit stack computes `ParseSpec` |
| Xml.CloseTopStep | vscode-extension/media/sim/xml.js:26-36 | closetop on the loop's variables is `CloseTop` |
| Xml.ResumeStep | vscode-extension/media/sim/xml.js:47-72 | the outcome of the input is the step on its first token, then the outcome of the rest |
| Xml.ParseResultIsLastChildOfRoot | vscode-extension/media/sim/xml.js:73-79 | a successful parse leaves the ?xml element alone open, and the result is its last child |
| VerilogSim.TimingStepMeaning | extension/src/verilogSimulator.ts:231-281 | h wraps from 799 to 0 and only then v advances; v wraps from 524 to 0 and only then the frame count advances; hsync is h >= 96, vsync is v >= 2, active is 144 <= h < 784 and 35 <= v < 515; pix_x, pix_y are the offsets when active and 0 otherwise; moving_x is pix_x + counter |
| VerilogSim.TimingStepOnClock | extension/src/verilogSimulator.ts:231-257 | stepping the counters once per clock keeps h = clock mod 800, v = (clock div 800) mod 525 and frame = clock div 420000 |
| VerilogSim.TimingAgreesWithFallback | extension/src/verilogSimulator.ts:231-281 | after a timing step the sync, active and position outputs equal the ones the fallback simulator computes for the same clock |
| VerilogSim.ParseColorValue | extension/src/verilogSimulator.ts:308-314 | two elements, each 0 or 1 |
| VerilogSim.ParseColorValueBits | extension/src/verilogSimulator.ts:308-314 | the elements are (v >> 1) & 1 and v & 1, and read as two bits they are v mod 4 |
| VerilogSim.AssignStepColours | extension/src/verilogSimulator.ts:283-306 | an assignment keeps every colour a two-bit array |
| VerilogSim.AssignAllKeeps | extension/src/verilogSimulator.ts:283-306 | assignments never touch the clock, the raster, the pixel position or the counter |
| VerilogSim.RedUnassigned | extension/src/verilogSimulator.ts:283-306 | without an assignment to R the red bits stay as they were |
| VerilogSim.ShouldTriggerMeaning | extension/src/verilogSimulator.ts:325-332 | a block on "posedge vsync" never triggers; otherwise it triggers exactly on "posedge clk" or "negedge rst_n" |
| VerilogSim.AlwaysAllCounts | extension/src/verilogSimulator.ts:316-344 | the always blocks advance the counter once per triggering block modulo 1024 when a counter is declared, and change nothing else |
| VerilogSim.CycleKeepsValid | extension/src/verilogSimulator.ts:168-187 | one simulation step adds exactly 1 to the clock and keeps the state valid |
| VerilogSim.CyclesFromInitial | extension/src/verilogSimulator.ts:168-187 | from the reset state, n steps leave the clock at n and the raster where the fallback's closed form puts clock n |
| VerilogSim.FrameBytesAreFull | extension/src/verilogSimulator.ts:189-229 | in a generated frame every alpha byte is 255 and every colour byte is 0 or 255 |
| VerilogSim.FrameRedUnassigned | extension/src/verilogSimulator.ts:189-229 | without an assignment to R every pixel's red byte repeats the red bits held before the frame |
| VerilogSim.PixelBytesAt | extension/src/verilogSimulator.ts:210-218 | the four bytes of pixel k sit at k * 4 and are the outputs after k + 1 pixels |
| VerilogSim.Simulator.constructor | extension/src/verilogSimulator.ts:51-74 | the initial state, with no signals, assignments or always blocks (with the corrected evaluator; see Findings) |
| VerilogSim.Simulator.Reset | extension/src/verilogSimulator.ts:350-372 | back to the initial state, with signals, assignments and always blocks emptied (with the corrected evaluator; see Findings) |
| VerilogSim.Simulator.UpdateVGATiming | extension/src/verilogSimulator.ts:231-281 | the new state is `TimingStep` of the old one, nothing else changed |
| VerilogSim.Simulator.EvaluateAssignments | extension/src/verilogSimulator.ts:283-306 | the new state is `AssignAll` of the old one (with the corrected evaluator; see Findings) |
| VerilogSim.Simulator.EvaluateAlwaysBlocks | extension/src/verilogSimulator.ts:316-323 | the new state is `AlwaysAll` of the old one |
| VerilogSim.Simulator.ExecuteAlwaysBlock | extension/src/verilogSimulator.ts:334-344 | counter := (counter + 1) mod 1024, only when a counter signal is declared |
| VerilogSim.Simulator.Simulate | extension/src/verilogSimulator.ts:168-187 | the new state is `Cycles` of the old one over clockCycles steps, so the clock grows by exactly clockCycles; the report is that state's signals |
| VerilogSim.Simulator.GenerateFrame | extension/src/verilogSimulator.ts:189-229 | a fresh 640 x 480 x 4 buffer whose every byte is `FrameByte` of the old state, the frame and clock numbers of the old state (with the corrected evaluator; see Findings) |
| VerilogSim.Simulator.ShadePixel | extension/src/verilogSimulator.ts:193-218 | one pixel: its four bytes from the outputs after its assignments, every byte before and after them untouched |
| VerilogSim.Simulator.ShadeRow | extension/src/verilogSimulator.ts:191-220 | after row y every byte of rows 0..y is the frame's byte and every byte after row y is untouched |
| VerilogSim.StorePixel | extension/src/verilogSimulator.ts:211-218 | the four bytes at k * 4 from the outputs, every byte before and after them untouched |
| VerilatorFallback.SignalsAtMeaning | extension/out/verilatorSimulator.js:190-240 | h = clock mod 800 and v = (clock div 800) mod 525; hsync is h >= 96, vsync is v >= 2, active is 144 <= h < 784 and 35 <= v < 515; pix_x, pix_y are the display offsets when active and 0 otherwise; colours are bits 5, 6, 7 of pix_x + counter when active, with 0 as the second element; sound is false |
| VerilatorFallback.FrameBytePixel | extension/out/verilatorSimulator.js:241-270 | pixel (x, y) sits at (y * 640 + x) * 4; its colour bytes are 0 or 255 by bits 5, 6, 7 of x + counter; its alpha is 255 |
| VerilatorFallback.FallbackCompileNeedsEnd | extension/out/verilatorSimulator.js:182-189 | the check holds exactly when the text contains "endmodule" and one of hsync, vsync, R, G, B ("module" comes with "endmodule") |
| VerilatorFallback.WritePixel | extension/out/verilatorSimulator.js:252-263 | the four bytes of one pixel, every byte before and after them untouched |
| VerilatorFallback.Simulator.constructor | extension/out/verilatorSimulator.js:7-23 | clock, frame, counter, pix_x and pix_y are 0 and video is inactive |
| VerilatorFallback.Simulator.Reset | extension/out/verilatorSimulator.js:124-139 | the same initial state again |
| VerilatorFallback.Simulator.FallbackSimulate | extension/out/verilatorSimulator.js:190-240 | the clock grows by exactly clockCycles, the report is `SignalsAt` of the new clock, and only pix_x and pix_y are stored |
| VerilatorFallback.Simulator.FallbackGetFrame | extension/out/verilatorSimulator.js:241-270 | a fresh 640 x 480 x 4 buffer whose every byte is `FrameByte`; pix_x, pix_y are left at the last pixel |
| VerilatorFallback.Simulator.UpdateCounter | extension/out/verilatorSimulator.js:273-275 | counter := (counter + 1) mod 1024: stays in [0, 1024) and wraps from 1023 to 0 |
| VerilogEval.ConcatBodyShape | extension/out/verilogExpressionEvaluator.js:13-16 | a concatenation is "{" body "}" with a non-empty body holding no '}' |
| VerilogEval.TernaryShape | extension/out/verilogExpressionEvaluator.js:18-24 | a ternary is cut at a '?' and a later ':' into three non-empty parts |
| VerilogEval.FindIsIndexOf | extension/out/verilogExpressionEvaluator.js:26-61 | the scan behind includes and split is indexOf |
| VerilogEval.SplitTwoLeft | extension/out/verilogExpressionEvaluator.js:26-61 | the left operand is everything before the first occurrence of the operator |
| VerilogEval.BitSelectShape | extension/out/verilogExpressionEvaluator.js:63-68 | a bit select is a word, '[', digits, ']' |
| VerilogEval.SizedPayloadShape | extension/out/verilogExpressionEvaluator.js:76-93 | a sized literal is size digits, an apostrophe, the letter and a payload of digits of the radix |
| VerilogEval.ApplyBitwise | extension/out/verilogExpressionEvaluator.js:54-61 | `&` sets a bit of the 32-bit result exactly when both operands have it, `\|` exactly when either does |
| VerilogEval.SignalBit | extension/out/verilogExpressionEvaluator.js:129-146 | a bit of pix_x, pix_y or moving_x is (v >> i) & 1; a declared signal gives its element, or 0 past its end; an unknown name gives 0 |
| VerilogEval.ShiftedBit | extension/out/verilogExpressionEvaluator.js:132 | (v >> i) & 1 is bit i mod 32 of v |
| VerilogEval.OrShiftFoldPacks | extension/out/verilogExpressionEvaluator.js:96-106 | when the values fit their widths, the fold places each value at the sum of the widths before it, so ORing is adding |
| VerilogEval.OrShiftStep | extension/out/verilogExpressionEvaluator.js:102 | result \| (v << pos) is result + v * 2^pos when they do not overlap |
| VerilogEval.SignalValueOfBits | extension/out/verilogExpressionEvaluator.js:162-170 | a signal of at most 31 bits reads as the sum of signal[i] << i |
| VerilogEval.BitWidth | extension/out/verilogExpressionEvaluator.js:107-128 | a declared signal's length, else 1 for a bit select, else the size digits of a sized constant, else 1 |
| VerilogEval.SizedLiteralWidth | extension/out/verilogExpressionEvaluator.js:122-127 | getBitWidth of a sized binary or hexadecimal literal is the number its size digits denote, whatever signals are declared, so that is the width the literal takes in a concatenation |
| VerilogEval.ConcatPairsWith | extension/out/verilogExpressionEvaluator.js:96-106 | one (value, width) pair per comma-separated part, the width being `BitWidth` of the part |
| VerilogEval.ConcatEvaluates | extension/out/verilogExpressionEvaluator.js:13-16 | a concatenation evaluates to the fold of its parts |
| VerilogEval.ComparisonIsBoolean | extension/out/verilogExpressionEvaluator.js:26-43 | a comparison evaluates to 0 or 1 |
| VerilogEval.UnrecognisedIsZero | extension/out/verilogExpressionEvaluator.js:94 | text of no recognised form evaluates to 0 |
| VerilogEval.BinaryLiteralValue | extension/out/verilogExpressionEvaluator.js:76-81 | N'b... evaluates to its digits in base 2, the size ignored, both as written and corrected |
| VerilogEval.HexLiteralValue | extension/out/verilogExpressionEvaluator.js:88-93 | N'h... evaluates to its digits in base 16, the size ignored, both as written and corrected |
| VerilogEval.DecimalValue | extension/out/verilogExpressionEvaluator.js:83-86 | a plain decimal evaluates to its value (corrected; see Findings) |
| VerilogEval.DecimalAsWrittenIsName | extension/out/verilogExpressionEvaluator.js:70-86 | as written, a plain decimal is looked up as a signal name |
| VerilogEval.DecimalFiveAsWritten | extension/out/verilogExpressionEvaluator.js:70-86 | "5" reads as 0 as written and as 5 corrected |
| VerilogEval.EvaluateConcatenation | extension/out/verilogExpressionEvaluator.js:96-106 | the loop computes the OR-shift fold of the parts' values and widths |
| VerilogEval.PackParts | extension/out/verilogExpressionEvaluator.js:98-105 | the packing loop computes the OR-shift fold |
| VerilogEval.GetSignalValue | extension/out/verilogExpressionEvaluator.js:147-172 | the bit-packing loop computes `SignalValue`: a pixel coordinate, video_active as 1 or 0, a declared signal's bits, or 0 |
| VerilogParser.ExtractBitWidth | extension/out/verilogParser.js:64-73 | every element of the result is 0 |
| VerilogParser.ExtractBitWidthDecl | extension/out/verilogParser.js:64-73 | a line "p wire [m:l] rest" whose prefix p holds no "wire" (such as "output wire [1:0] R") gives m - l + 1 zeros, or a RangeError for a negative length |
| VerilogParser.ExtractBitWidthDefault | extension/out/verilogParser.js:64-73 | a line "p wire [q" that parseVGASignals passes on, where the bracket opens no digit range (such as "wire [WIDTH-1:0] R;"), gives the default [0, 0] |
| VerilogParser.Classify | extension/out/verilogParser.js:25-60 | a line sets exactly the flags it declares and reads exactly the colour channels it names |
| VerilogParser.ScanSignalsFlags | extension/out/verilogParser.js:21-61 | flags only go from false to true: set at the end exactly when set at the start or declared by some line |
| VerilogParser.ParseVGASignalsFlags | extension/out/verilogParser.js:5-63 | a flag is set exactly when some line declares it |
| VerilogParser.ParseVGASignalsFails | extension/out/verilogParser.js:31-39 | the scan fails exactly when a colour line declares a range no array can have |
| VerilogParser.ParseVGASignals | extension/out/verilogParser.js:5-63 | the line loop computes `ScanLines` over the trimmed lines |
| VerilogParser.ScanVGASignals | extension/out/verilogParser.js:22-61 | the same, over lines already split |
| VerilogParser.ModuleNameDecl | extension/out/verilogParser.js:85-90 | "module NAME ..." announces NAME |
| VerilogParser.PortDeclWidth | extension/out/verilogParser.js:92-105 | "input wire [m:l] name" declares name with width m - l + 1 |
| VerilogParser.PortNeedsColon | extension/out/verilogParser.js:92-106 | a line without ':' declares no port |
| VerilogParser.ParseModulePorts | extension/out/verilogParser.js:74-109 | the module name comes from the last line announcing one ("" if none), the inputs and outputs are in line order, and there are no inouts |
| VerilogParser.ScanModulePorts | extension/out/verilogParser.js:82-107 | the same, over lines already split |
| VerilogParser.ScanPortLine | extension/out/verilogParser.js:83-106 | what one trimmed line contributes: a module name, an input port, an output port |
| VerilogParser.ParseVGAAssignments | extension/out/verilogParser.js:110-154 | the nine targets, each set by the last line assigning it, "" when none does |
| VerilogParser.ScanVGAAssignments | extension/out/verilogParser.js:123-152 | the same, over lines already split |
| VerilogParser.AssignLine | extension/out/verilogParser.js:125-151 | the nine tests on one line |
| VerilogParser.AssignValueOfDecl | extension/out/verilogParser.js:125-151 | "assign KEY = EXPR;" assigns EXPR to KEY |
| VerilogParser.AssignLastWins | extension/out/verilogParser.js:123-152 | the last line assigning a target decides its value |
| VerilogParser.AssignUntouched | extension/out/verilogParser.js:111-121 | a target no line assigns stays "" |
| VerilogParser.AssignPrefixMatch | extension/out/verilogParser.js:134-136 | the test is a prefix test: "assign RGB = x;" also sets R, to the whole line without its ';' |
| VerilogParser.ParseAlwaysBlocks | extension/out/verilogParser.js:184-200 | one block with an empty body per line opening one, in line order |
| VerilogParser.ScanAlwaysBlocks | extension/out/verilogParser.js:187-198 | the same, over lines already split |
| VerilogParser.AlwaysDecl | extension/out/verilogParser.js:189-196 | "always @(SENS)REST" opens a block with sensitivity SENS |
| VerilogParser.GatherStops | extension/out/verilogParser.js:166-174 | the continuation appends exactly the lines up to where it stops, which is the end of the text or the first point where the parentheses balance, and not before |
| VerilogParser.FirstIndex | extension/out/verilogParser.js:169 | `lines.indexOf(line)`: the first equal line, or -1 when there is none |
| VerilogParser.InstancesUpToAt | extension/out/verilogParser.js:158-180 | the entry for line k reads its continuation from line k + 1 on |
| VerilogParser.ParseModuleInstantiations | extension/out/verilogParser.js:155-183 | the instances the lines open, in order, each continued from the line after its own (corrected; see Findings) |
| VerilogParser.ScanInstantiations | extension/out/verilogParser.js:158-181 | the same, over lines already split |
| VerilogParser.ScanInstance | extension/out/verilogParser.js:159-180 | one line and its continuation loop |
| VerilogParser.InstancesAgreeWhenDistinct | extension/out/verilogParser.js:169 | when no line repeats, as written and corrected agree |
| VerilogParser.RepeatedLineAsWritten | extension/out/verilogParser.js:169 | with the instantiating line repeated, the second instance gets the first one's continuation as written |
| VgaPatterns.RasterSize | vscode-extension/media/vgaSimulator.js:21-31 | H_MAX = 799 and V_MAX = 524 |
| VgaPatterns.StripesPattern | vscode-extension/media/vgaSimulator.js:472-499 | moving_x = (x + frameCount) mod 1024; r = {moving_x[5], y[2]}, g = {moving_x[6], y[2]}, b = {moving_x[7], y[5]}; each channel in 0..3 |
| VgaPatterns.CheckersPattern | vscode-extension/media/vgaSimulator.js:501-509 | all three channels 3 where bit 5 of x and bit 5 of y differ, 0 where they agree |
| VgaPatterns.ConwayPattern | vscode-extension/media/vgaSimulator.js:527-540 | a live cell (3, 3, 1) exactly when (x div 8 + y div 8 + frameCount) mod 7 < 3, black otherwise |
| VgaPatterns.ConwayCells | vscode-extension/media/vgaSimulator.js:527-540 | every pixel of an 8 x 8 cell has the colour of the cell's corner |
| VgaPatterns.ConwayPeriod | vscode-extension/media/vgaSimulator.js:527-540 | on the screen the pattern repeats every 7 frames |
| VgaPatterns.Clamp8 | vscode-extension/media/vgaSimulator.js:566-574 | a clamped byte store keeps 0..255 and clamps anything else |
| VgaPatterns.WritePixel | vscode-extension/media/vgaSimulator.js:566-574 | setPixel changes no byte outside the pixel's four |
| VgaPatterns.WritePixelOnScreen | vscode-extension/media/vgaSimulator.js:566-574 | on the screen the four bytes at (y * 640 + x) * 4 become the channels times 85 and alpha 255 |
| VgaPatterns.DetectIsFirstMatch | vscode-extension/media/vgaSimulator.js:316-338 | the pattern is the first keyword group that matches, in the order stripes, checkers, conway, bouncing, logo |
| VgaPatterns.DefaultWhenNoKeyword | vscode-extension/media/vgaSimulator.js:316-338 | the default pattern is chosen exactly when no keyword occurs |
| VgaPatterns.ExampleValue | vscode-extension/media/vgaSimulator.js:604 | same length; lower-case letters and digits kept, upper-case letters lowered, everything else '-' |
| VgaPatterns.ExampleValueIdempotent | vscode-extension/media/vgaSimulator.js:604 | a value is its own value |
| VgaPatterns.ExampleValuesDistinct | vscode-extension/media/vgaSimulator.js:589-608 | the eight option values are pairwise distinct |
| VgaPatterns.VgaSimulator.constructor | vscode-extension/media/vgaSimulator.js:3-17 | both counters 0, the default pattern, no module |
| VgaPatterns.VgaSimulator.AnalyzeVerilogPattern | vscode-extension/media/vgaSimulator.js:316-338 | the pattern is the first match of the keyword table, nothing else changed |
| VgaPatterns.VgaSimulator.InitializeSimulation | vscode-extension/media/vgaSimulator.js:340-364 | after installing the stand-in module and resetting, a module is loaded with ena = 1 and rst_n = 1, both counters are 0, and the pattern and canvas are unchanged |
| VgaPatterns.VgaSimulator.Reset | vscode-extension/media/vgaSimulator.js:366-378 | both counters 0; with a module loaded, ena = 1 and rst_n = 1 after the reset pulse |
| VgaPatterns.VgaSimulator.SetPixel | vscode-extension/media/vgaSimulator.js:566-574 | the buffer becomes `WritePixel` of the old one |

## Left out

- **I/O and platform code.** The VS Code and webview plumbing, WASM loading, canvas drawing and timers are not modelled. Neither are the float-based patterns (bouncing, logo, test), `$display`, `$rand` and `$time`: they are console output, randomness and the wall clock.
- **Code generation.** Generated program text, its compilation with `new Function`, `getJSCode` and `dispose` are left out. Blocks are the abstract functions of `HdlRuntime.Behaviour`, so in-place changes a block makes to an array in the table are not captured. The code lowering yields is kept as a `Code` tree.
- **Builtin discovery.** Built-ins found by prototype reflection are the fixed list `HdlRuntime.SystemTask`.
- **Debug reads in eval.** `eval()` reads some debug signals it never uses. They are not modelled.
- **hdltypes.js is not part of this model.** The design tree types are inferred from the fields the kernel reads.
- **Object.prototype names.** Clashes between variable names and names on `Object.prototype` are ignored: tables are maps.
- **The translator's scratch state.** The source keeps it on the object (`constused`, `locals`, `curconsts`). Here it is threaded as a value (`HdlLower.LState`).
- **HdlRuntime.HdlModule.Init:**
  - It states the form of each default (`HasForm`: the scalar itself, or a typed array of the right kind and length, or some plain array). It does not state every element. `HdlRuntime.DefaultValue` states the contents down to the elements of a plain array.
  - It does not state which error is reported first when several would be.
- **HdlRuntime.HdlModule.AddDefaults** records all definitions before the values. The source records each one just before its value. The two differ only on a path that throws.
- **HdlRuntime.HdlModule.Tick** models `clk ^= 1` on integers, booleans, null, undefined, NaN and BigInt. String and object clock values are not modelled.
- **HdlRuntime.HdlModule.ReadMem:**
  - The lsbp and msbp bounds are ignored, as in the source.
  - A destination that is neither null nor an array gives a type error.
  - The file provider is a parameter of the module (`fileData`).
- **HdlRuntime.StoreAt** leaves plain arrays alone for a negative initialiser index. In JavaScript that index becomes a property rather than an element.
- **HdlRuntime.Tick2EndsHigh** assumes that no block writes `clk`.
- **SimUtil.SafeExtend** ignores the `deep` flag, as the source does.
- **VerilogEval.OrShiftFoldPacks** is stated for values that fit their widths. It does not give the 31-bit bound on the packed result.
- **VerilogParser.AssignLine** applies the nine unrolled tests of parseVGAAssignments as a loop over the nine target names.
- **VerilogSim compile and parsing.** `compile` and its line parsing in verilogSimulator.ts (lines 76-166) are not modelled. The simulator's signals, assignments and always blocks are its fields.
- **VerilogSim.Simulator.EvaluateAssignments** and **VerilogSim.Simulator.GenerateFrame** evaluate with the corrected `VerilogEval.Evaluate` (see Findings), which `VerilogSim.Simulator.constructor` and `VerilogSim.Simulator.Reset` install. They differ from the source on plain decimals. For `assign R = 1;` the source reads "1" as a signal name and gets red [0, 0]. The model gets red [0, 1].
- **HdlRuntime.HdlModule.Eval**, **HdlRuntime.HdlModule.Tick2** and **HdlRuntime.HdlModule.Powercycle** never set the finished or stopped latch, and never read a memory file. In the source, `$finish`, `$stop` and `$readmem` are reached only from generated block code (the call form lowered at hdlruntime.js lines 317-327). Here a block is a function over the signal table and invokes no system task. In the model the latches are set, and memory files read, only by direct calls of `Finish`, `Stop` and `ReadMem`.
- **VgaPatterns.ExampleValue** lower-cases with the ASCII mapping. JavaScript's `toLowerCase` applies the full Unicode mapping. That mapping can lengthen a string (U+0130 becomes two code units) or yield an ASCII letter (the Kelvin sign U+212A becomes 'k'). The contract is faithful for ASCII names, which all eight example names are.
- **VgaPatterns.VgaSimulator.InitializeSimulation** keeps only the stand-in module's ena and rst_n. Its other state entries, its data buffer, its powercycle and the compilation message are not modelled.
- **HdlRuntime.DefaultValue** (through `HdlRuntime.DefaultShape`) allocates the corrected array length abs(high - low) + 1 (see Findings). For an array declared [0:3] the source allocates 2 elements and the model 4; for [0:1] the source allocates none and the model 2.
- **HdlRuntime.HdlModule.AddDefault** stores that corrected default, so an array declared [0:3] holds 4 elements where the source's holds 2.
- **HdlRuntime.HdlModule.AddDefaults** stores the corrected default of every variable in the same way.
- **HdlRuntime.HdlModule.Build** stores the corrected defaults. It also compiles blocks with the corrected declaration lowering (`HdlLower.LowerDecl`, see Findings). So its "succeeds exactly when every block compiles" holds for a block with a local declaration that has a constant initialiser. The source throws there, at hdlruntime.js lines 215-216.
- **HdlRuntime.HdlModule.Init** builds the pool and the module with `Build`, so the same two corrections apply to it.
- **VerilogEval.TernaryParts** returns None for a text holding a line terminator. In the source's pattern the `\s*` around '?' and ':' can absorb one, so "a\n? b : c" is a ternary there and 0 here. The evaluator's callers pass one trimmed line at a time, so this text does not reach it.
- **JsString.ParseInt** keeps the exact integer. JavaScript's `parseInt` returns a double, which rounds values above 2^53. For `64'hFFFFFFFFFFFFFFFF` the source gets 2^64, whose 32-bit value is 0 (red [0, 0]). The model gets 2^64 - 1, whose 32-bit value is -1 (red [1, 1]). The same holds for memory words wider than 53 bits in `HdlRuntime.MemData`.
- **JsString** strings are sequences of Unicode scalar values. JavaScript strings are UTF-16 code units. The two agree on text without characters outside the Basic Multilingual Plane. Such a character is one element here and two code units in JavaScript, so lengths and indices differ on it, e.g. the "same length" of `VgaPatterns.ExampleValue`.
- **The HDLError message text** is replaced by the constructors of `HdlAst.HdlError`.

## Findings

| source | as written | input that shows it | evidently intended | confidence | as-written member | corrected member |
|---|---|---|---|---|---|---|
| vscode-extension/media/sim/hdlruntime.js:148-150 | the array length is abs(high - low + 1) | an array declared [0:3] (high 0, low 3) gets 2 elements, and [0:1] gets none | abs(high - low) + 1 elements for either order of the bounds | high; not executed | HdlRuntime.ArrayLengthAsWrittenShort | HdlRuntime.ArrayLength |
| vscode-extension/media/sim/hdlruntime.js:215-216 | a local declaration's initialiser is `constValue(e)` of the declaration itself, which is not a constant expression | any declaration inside a block whose constant value is Const(5) | the declaration initialised with its constant value, 5 | medium (hdltypes.js is not part of this model); not executed | HdlLower.DeclWithConstantAsWritten | HdlLower.DeclWithConstant |
| extension/out/verilogExpressionEvaluator.js:70-86 | the name pattern `^(\w+)$` is tried before the decimal pattern, so a plain decimal is looked up as a signal | the expression "5" with no signal named "5" evaluates to 0 | "5" evaluates to 5 | high; not executed | VerilogEval.DecimalFiveAsWritten | VerilogEval.DecimalValue |
| extension/out/verilogParser.js:169 | the continuation starts after `lines.indexOf(line)`, the first line equal to the current one | the lines "a b(", "x)", "a b(", "y)": the second instance is read as "a b( x)" | each instance continues from the line after its own: "a b( y)" | high; not executed | VerilogParser.RepeatedLineAsWritten | VerilogParser.ParseModuleInstantiations |
