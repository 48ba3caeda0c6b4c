# fARM64, modelled and proved in Dafny

fARM64 is an AArch64 disassembler and assembler written in Rust: a decoder without
allocation, an encoder, and an instruction value that can be edited between the two. This
project models the parts where it computes, decides or keeps state, and proves what they
are for, over every word, address, feature set, operand list or run.

`dafny verify dfyconfig.toml` checks everything. The files, by the part they model:

- **Bitmask immediates** (`word64`, `bits`, `logicalimm`, `bitmasklaws`): `DecodeBitMasks`
  and `MoveWidePreferred` of the Arm ARM (DDI 0487, chapter J1), the encoder's inverse
  search, and the bijection between accepted field triples and rotated, repeated runs of
  ones.
- **The instruction** (`isa`, `instruction`, `editlaws`, `history`, `committed`): registers,
  encodings, mnemonics and operands; the object with its five operand slots; every public
  edit, what it stores and what it leaves; what any history of edits, and of edits and
  `re_encode`, keeps.
- **The branch, exception and system group** (`fields`, `branchspec`, `branchdecode`,
  `encoding`, `branchencode`): the decode tree of section C4.1 of the Arm ARM as methods
  that fill an instruction, arm by arm in the order of the source, each proved equal to a
  function of the fields; and the encoder.
- **The encoding table** (`encodingtable`, `tablelaws`, `tablesystem`, `decodedtable`,
  `decodedflow`): the same group and the reserved words as one flat table of literal masks
  and rows, and that the decoder computes it, with the flow of control, the extension and
  the condition of every row.
- **Theorems of that group** (`branchvalidity`, `branchlaws`, `systemlaws`,
  `sysaliaslaws`, `roundtrip`, `canonical`, `relocation`, `retarget`, `reencode`, `returns`,
  `monotone`, `gates`, `encoderlaws`): round trip and the exact condition for it,
  relocation, reach, which edited instructions come back, monotonicity, gate soundness, the
  replay test, and that the encoder takes only what fits.
- **The SYS alias directory** (`sysdirectory`, `sysops`, `syslisting`, `sysrows`,
  `shipped`): its two linear searches, what rows must satisfy for them to be inverse, the
  literal rows, that these satisfy it in any order, and what follows.
- **Apple AMX and GXF** (`apple`), **the top of the tree** (`decodetree`) and **the
  streaming decoder** (`decoder`).
- **Access analysis** (`access`, `implicit`, `implicitlaws`, `info`, `infolaws`, `formlaws`,
  `decodedinfo`, `decodedimplicit`, `flagreport`): fixed arrays of accesses that refine a
  map with a join, the implicit registers and the exact entry of each, the whole report and
  the exact access of each register in every form, what the report says of every decoded
  branch, and exactly where its flags are right.
- **System registers** (`sysreg`): packing and rendering.

A value of an instruction is the datatype `Insn`; `Instruction` is the object, and
`View()` is its value. Decoder functions in the source write into an `Instruction`; here
each is a method whose postcondition equates the new `View()` with a function of the old
one, and the theorems are about those functions. Addresses and 64-bit values are numbers
below 2^64 with wrapping addition and subtraction; instruction words and their fields are
bit-vectors.

Four things come from outside and are parameters: the decoders of the other instruction
groups (`DecodeTree.Others`), the SYS alias directory (`SysTable`, `SysNames`, related by
`SysAliasLaws.Paired`; `ShippedDirectory` puts the literal rows in), the mnemonic tables
of the access analysis (`Info.Tables`), and the directory of system-register names
(`SystemRegisters.Names`).

## Where the code and its documentation differ

The model follows the code.

- `src/encode/branch_sys.rs:27-38` says that only `TLBI` and `IC` forms lose bits on a
  round trip. Others do: the `op1` of hints, barriers, `WFET` and `WFIT`; the `CRm` of
  `CFINV`, `XAFLAG`, `AXFLAG`, `SB`, `SMSTART` and `SMSTOP`; the `Rt` of further alias
  forms and of `GCSPUSHX`, `GCSPOPX` and `GCSPOPCX`. `CanonicalForm.ExactRoundTrip` gives
  the exact condition and `CanonicalForm.HintLosesOp1` an instance.
- `src/decode/bits.rs:217-248`: on the MOVN side `move_wide_preferred` is sound but not
  complete; `BitMaskLaws.MoveWideMeaning` says by how much, `BitMaskLaws.MoveWideMissesOne`
  gives an instance.
- `src/sysreg.rs:17-18` announces three bits of `op0`; two are kept
  (`SystemRegisters.FieldsOfPack`). `src/sysreg.rs:100-102` shows the generic form with a
  leading `s`; only `render_to` writes it.
- `src/info.rs:89-100` describes `merge` as combining a read with a write; a plain and a
  conditional access of the same kind would also merge to read-write
  (`Access.MergeAddsUp`). No caller can tell: no instruction has a conditional access
  (`InfoLaws.ConditionalNeverArises`).
- `src/info.rs:148-170` defines the scalar flags as reading and writing NZCV. Against what
  the Arm ARM makes each word itself do, reading is also reported for the fused
  compare-and-branch forms, which compare registers, and for `B` and `BC` with AL or NV,
  which look at no flag. It is not reported for `MRS` of NZCV, nor for the words that save
  the flags with the rest of the state: `SVC`, `HVC`, `SMC`, `BRK`, `HLT`, `TSTART`, and
  `TENTER`, counted with the exceptions it is like. Writing is not reported for `MSR` of
  NZCV and `MRS` of RNDR and RNDRRS, which set the flags, nor for the words that restore
  them: `ERET`, `ERETAA`, `ERETAB`, `DRPS` and `TCANCEL`. For every other word decoded here
  both are right (`FlagReport.ReadRightIff`, `FlagReport.WriteRightIff`,
  `ShippedDirectory.FlagsRightIff`); of the two Apple clusters, which the Arm ARM leaves
  reserved, that says only that no flag is reported.
- `src/register.rs:410-413` counts `RETA*SPPC` among the forms that report a read of PC;
  they do not (`Implicit.SppcReturnSkipsPc`, `DecodedInfo.RetaasppcSkipsPc`).
  `Implicit.PcEntry` says exactly what does.
- `src/instruction.rs:497-512` lets `word()` be relied on while `is_modified` is false. It
  may already differ for the decoded instruction: `ShippedDirectory.UnmarkedIsItsWordIff`
  says exactly when not.
- `src/instruction.rs:293-318` and `357-364` against `902-973`: the setters of a memory
  operand also edit a vector address, which the getters skip
  (`EditHistory.MemoryReadsBackIff`).
- `src/encode/mod.rs:67-77`: what an edited instruction encodes to may decode to another
  one; the encoder takes a stack pointer to branch to, a register of the wrong width, and
  drops the high bits of a bit number. `CommittedEdits.ReturnsIffDecoded` has the exact
  condition for every encoding; `Reencode.DirectBranchReturnsIff`,
  `Returns.RegBranchReturnsIff` and `Returns.ExceptionReturnsIff` have it on the operands of
  branches and exceptions; `CommittedEdits.StackPointerIsLost`,
  `Reencode.NarrowRegisterIsLost` and `Reencode.HighBitIsLost` are instances.
- `src/info.rs:58-60` says the report never drops a register. It can for edited
  instructions: `InfoLaws.InfoIsMap` has the exact condition, `InfoLaws.SlimFits` a
  sufficient one on the operands, `InfoLaws.WideGroupIsCutShort` a family that fails,
  `InfoLaws.TwentyOneVectors` a member of it.

## Model

| member | source | states |
|---|---|---|
| Bits.Replicate | src/decode/bits.rs:94-106 | The loop lays the `from`-bit unit end to end: bit i of the result is bit `i mod from` of the value for every i below `to`, and an out-of-range length leaves the value alone. |
| Bits.RorBits | src/decode/bits.rs:202-210 | Bit i of a rotation within `width` is bit `(i + shift) mod width`, for every width up to 64. |
| Bits.ElementSizeIsHighestSetBit | src/decode/bits.rs:80-86 | The highest set bit of `immN:NOT(imms)` is the logarithm of the element size, and is below 1 exactly for the reserved pairs. |
| Bits.DecodeBitMasks | src/decode/bits.rs:133-182 | Both masks in closed form: bit i of `wmask` is set iff `(i + R) mod e <= S`, of `tmask` iff `i mod e <= (S - R) mod e`; None exactly for reserved fields and, for immediates, the full element. |
| Bits.ExpandMasks | src/decode/bits.rs:163-181 | The replicated element masks from S, R and the element size. |
| BitMaskLaws.AcceptedIffLogical | src/decode/bits.rs:102-182 | A 64-bit value is the mask of an accepted immediate iff it repeats an element holding one cyclic run of ones, neither empty nor full. |
| BitMaskLaws.AcceptedTripleIsUnique | src/decode/bits.rs:133-182 | The triple behind a value is unique once `immr` is reduced below the element size. |
| LogicalImm.RunIsUnique | src/decode/bits.rs:140-181 | A word is a repeated rotated run in one way only: element size, length and rotation are determined by its bits. |
| LogicalImm.EncodeBitMasks | src/encode/bits.rs:32-82 | The encoder search over element sizes returns fields iff the value is a logical immediate, and then fields whose run it is. |
| LogicalImm.EncodeElement | src/encode/bits.rs:116-137 | The rotation and length of a run within one element, or None iff the element is no rotated run. |
| LogicalImm.Replicates | src/encode/bits.rs:97-105 | The loop decides whether the value repeats its lowest element. |
| BitMaskLaws.EncodeAfterDecode | src/encode/bits.rs:32-82 | Encoding the value of an accepted triple gives the triple back, with `immr` reduced. |
| BitMaskLaws.DecodeAfterEncode | src/encode/bits.rs:32-82 | Decoding the fields the encoder returns for a value gives the value. |
| BitMaskLaws.BitfieldField | src/decode/bits.rs:163-181 | For bitfield moves the masks together select the low S-R+1 bits when S >= R, and otherwise S+1 bits placed at m-R. |
| BitMaskLaws.MoveWideMeaning | src/decode/bits.rs:217-248 | With a full-width element: up to 16 ones the answer is exactly "one 16-bit field"; on the other side the exact bound the code uses and the exact bound for the complement to be one field. |
| BitMaskLaws.MoveWideIsSound | src/decode/bits.rs:217-248 | On every accepted immediate a true answer means that the value, or its complement, lies in one 16-bit field at a multiple of 16. |
| BitMaskLaws.MoveWideMissesOne | src/decode/bits.rs:217-248 | An accepted immediate whose complement is one field, for which the answer is false. |
| Fields.TargetToField | src/encode/branch_sys.rs:173-186 | The encoder recovers the field from the target the decoder resolved, at every address. |
| Fields.FieldToTarget | src/encode/branch_sys.rs:173-186 | What the encoder accepts, the decoder resolves to the same target. |
| Word64.OnesIsLow | src/decode/bits.rs:186-194 | A word has the value 2^n - 1 iff it is the mask of the low n bits, up to 64. |
| Fields.SignExtendMeans | src/decode/bits.rs:67-73 | The pair of shifts reads the low bits of any value as a signed number, at every width from 1 to 63. |
| Fields.OffsetIs | src/decode/bits.rs:67-73 | On the four branch fields the pair of shifts is the byte offset that the reach is stated with. |
| Fields.ExactReach | src/encode/branch_sys.rs:173-186 | The reachable targets are exactly the multiples of 4 in the signed range of the span; each is hit by exactly one field value; the encoder accepts exactly these. |
| Features.WithAdds | src/features.rs:275-285 | Enabling an extension adds it and no other, for every set. |
| Features.WithinKeeps | src/features.rs:261-271 | A larger set has whatever a smaller one has. |
| Features.WordsOfOne | src/features.rs:275-285 | The bit of each extension, as a literal word. |
| Isa.GpRegisterInvertible | src/register.rs:1669-1698 | The resolved register keeps the number, the width and, for 31, whether it is the stack pointer. |
| Instructions.Instruction.New | src/instruction.rs:378-388 | A fresh invalid value with five empty slots. |
| Instructions.Instruction.Reset | src/decode/mod.rs:58-62 | Whatever the object held, it becomes the invalid value of the word. |
| Instructions.Instruction.Set | src/instruction.rs:397-402 | The encoding, its mnemonic and no operands; slots past the count stay empty. |
| Instructions.Instruction.SetAlias | src/instruction.rs:410-412 | Only the mnemonic changes. |
| Instructions.Instruction.PushOperand | src/instruction.rs:417-423 | One operand more, unless five are there. |
| Instructions.Instruction.NearBranchTarget | src/instruction.rs:237-253 | The first label of a direct branch, else 0. |
| Instructions.Instruction.HasLabel | src/instruction.rs:524-528 | Whether some operand is a label. |
| Instructions.Instruction.SetIp | src/instruction.rs:545-550 | The address changes, labels do not; the value is marked iff a label is there. |
| Instructions.Instruction.Relocate | src/instruction.rs:567-582 | Every label moves by the distance the address does; marked iff one moved. |
| Instructions.Instruction.SetCode | src/instruction.rs:603-607 | The encoding and its mnemonic, marked. |
| Instructions.Instruction.SetMnemonic | src/instruction.rs:618-621 | The mnemonic alone, marked. |
| Instructions.Instruction.SetOp | src/instruction.rs:632-642 | The slot is set and slots up to it are counted; refused past five, changing nothing. |
| Instructions.Instruction.SetOpCount | src/instruction.rs:650-660 | The list is cut or padded with empty operands; refused past five, changing nothing. |
| Instructions.Instruction.PushOp | src/instruction.rs:667-676 | Appends and marks; refused when full, changing nothing. |
| Instructions.Instruction.SetOpRegister | src/instruction.rs:702-715 | Replaces the register iff the slot has one of the same class and width and accepts the new one. |
| Instructions.Instruction.SetOpRegisterUnchecked | src/instruction.rs:724-751 | Replaces the register iff the slot has exactly one. |
| Instructions.Instruction.SetOpImmediate | src/instruction.rs:787-822 | Stores the value in the kind of immediate the slot holds iff it fits. |
| Instructions.Instruction.SetCondition | src/instruction.rs:831-840 | The first condition operand is replaced, or nothing changes. |
| Instructions.Instruction.SetLabel | src/instruction.rs:880-889 | The first label is replaced, or nothing changes. |
| Instructions.Instruction.SetNearBranchTarget | src/instruction.rs:857-864 | The first label of a direct branch is replaced; refused for anything else. |
| Instructions.Instruction.SetMemoryBase | src/instruction.rs:902-916 | The base of the first memory operand is replaced, or nothing changes. |
| Instructions.Instruction.SetMemoryIndex | src/instruction.rs:925-937 | The index of the first indexed memory operand is replaced, or nothing changes. |
| Instructions.Instruction.SetMemoryDisplacement64 | src/instruction.rs:953-973 | The displacement of the first memory operand that has one is replaced; refused when a vector operand cannot hold it. |
| Instructions.Instruction.MemoryBase | src/instruction.rs:294-301 | The base of the first address of the two general kinds, else no register. |
| Instructions.Instruction.MemoryIndex | src/instruction.rs:308-315 | The index of the first register-indexed address, else no register. |
| Instructions.Instruction.MemoryDisplacement64 | src/instruction.rs:340-347 | The displacement of the first immediate address, else 0. |
| EditHistory.MemoryReadsBackIff | src/instruction.rs:902-973 | Every base, index or displacement that is set reads back iff the first operand that has that part is no vector address. |
| EditHistory.MemoryDisplacementSet | src/instruction.rs:953-973 | Applied iff some operand has a displacement that can hold it; the getter then reads it, or what it read before if it went to a vector address. |
| EditLaws.ImmediateSet | src/instruction.rs:787-822 | Applied iff the slot is counted and holds one of the eight kinds with a value in range, 255 and 0xffff included. The slot then has the same kind, with the value in it (its two's complement where signed) and shift amounts kept, `op_immediate` reads the value back from the kinds it reads, and every other slot is as it was. |
| EditLaws.RegisterSetUnchecked | src/instruction.rs:724-751 | Applied iff the slot is counted and has exactly one register; that register is then the new one, everything else about the operand and every other slot as before, and `op_register` reads it back. |
| EditLaws.RegisterSet | src/instruction.rs:702-715 | The checked edit applies iff, besides, both registers are of one view, out of a literal list of the views, and a predicate counter is 8 or above; it then does the same. |
| EditLaws.ConditionSet | src/instruction.rs:831-840 | Applied iff some operand is a condition; the first one is then the new condition, `condition` reads it back, and nothing else moves. |
| EditLaws.LabelSet | src/instruction.rs:880-889 | Applied iff some operand is a label; the first one is then the new target and nothing else moves. |
| EditLaws.BaseKept | src/instruction.rs:902-916 | Applied iff some operand has a base; the first one has the new base, its other parts kept, and nothing else moves. |
| EditLaws.IndexKept | src/instruction.rs:925-937 | The same for an index, of the operands that have one. |
| EditLaws.DisplacementKept | src/instruction.rs:953-973 | Applied iff the first operand with a displacement holds any, or the new one is from -2^31 to 2^31 - 1; that operand then has it, its other parts kept, and nothing else moves. |
| EditLaws.SlotSet | src/instruction.rs:632-642 | Below five the slot holds the operand, slots between read as empty, every other slot as before. |
| EditLaws.CountSet | src/instruction.rs:650-660 | Up to five: the count is the one asked for, slots below it as before and the rest empty. |
| EditLaws.Pushed | src/instruction.rs:667-676 | With fewer than five operands the next slot holds the new one, every other slot as before. |
| EditLaws.HeadSet | src/instruction.rs:545-621 | `set_code` gives the one name of the new encoding, out of a literal list of the shared names; `set_mnemonic` and `set_ip` move nothing else. |
| EditHistory.HistoryInvariant | src/instruction.rs:502-973 | Over any sequence of edits: at most five operands, the word kept, marks never cleared, and an unmarked value is the decoded one, moved only if it has no label. |
| EditHistory.EditMarks | src/instruction.rs:502-973 | Each single edit that leaves the value unmarked changed at most the address of an instruction without labels. |
| CommittedEdits.EncodeAlike | src/encode/mod.rs:71-76 | The encoder looks at encoding, mnemonic and operands, and at the address only for the sake of a label; never at the recorded word or the mark. |
| CommittedEdits.ReEncode | src/encode/mod.rs:138-143 | Stores the encoded word and clears the mark, or returns the error and changes nothing. |
| CommittedEdits.PlayKeepsFaith | src/instruction.rs:497-512 | Any sequence of edits and commits keeps this: an unmarked value encodes to its recorded word. |
| CommittedEdits.UnmarkedIsItsWordIff | src/instruction.rs:497-512 | It holds through every history of edits and commits iff it holds at the start. |
| ShippedDirectory.UnmarkedIsItsWordIff | src/instruction.rs:497-512 | For a decoded instruction it holds through every history iff the word it was decoded from holds its ignored fields at their fixed values. |
| EditHistory.RelocateComposes | src/instruction.rs:567-582 | Relocating twice is relocating once to the last address. |
| EditHistory.RelocateKeepsDisplacement | src/instruction.rs:567-582 | The displacement of a direct branch is the same after relocation. |
| EditHistory.RetargetReadsBack | src/instruction.rs:857-864 | The edit applies iff the value is a direct branch with a label; `near_branch_target` then reads the new target and nothing else changed. |
| BranchDecode.DecodeCondBranch | src/decode/branch_sys.rs:157-180 | Conditional branches and the PAuth-LR returns of that block. The new value of the output is the specification function of its old one. |
| BranchDecode.DecodeRetSppc | src/decode/branch_sys.rs:189-203 | RETAASPPC and RETABSPPC with their backward label. The new value of the output is the specification function of its old one. |
| BranchDecode.DecodeCompareBranch | src/decode/branch_sys.rs:242-262 | CBZ and CBNZ. The new value of the output is the specification function of its old one. |
| BranchDecode.DecodeTestBranch | src/decode/branch_sys.rs:268-287 | TBZ and TBNZ. The new value of the output is the specification function of its old one. |
| BranchDecode.DecodeCmpbr | src/decode/branch_sys.rs:306-389 | The fused compare-and-branch forms, register and immediate. The new value of the output is the specification function of its old one. |
| BranchDecode.DecodeUncondBranchReg | src/decode/branch_sys.rs:399-505 | Register branches, with the operands they leave out. The new value of the output is the specification function of its old one. |
| BranchDecode.DecodeException | src/decode/branch_sys.rs:515-580 | Exception generation, with the optional immediates. The new value of the output is the specification function of its old one. |
| BranchDecode.DecodeTchange | src/decode/branch_sys.rs:603-645 | TCHANGE, register and immediate. The new value of the output is the specification function of its old one. |
| BranchDecode.DecodeSystem | src/decode/branch_sys.rs:652-707 | The op0 dispatch. The new value of the output is the specification function of its old one. |
| BranchDecode.DecodeOp0Named | src/decode/branch_sys.rs:714-742 | The op0 == 00 dispatch on CRn. The new value of the output is the specification function of its old one. |
| BranchDecode.Op0Unallocated | src/decode/branch_sys.rs:756-760 | The replay under every extension returns whether no feature set names the selector. The new value of the output is the specification function of its old one. |
| BranchDecode.DecodeMsrImm | src/decode/branch_sys.rs:768-834 | PSTATE writes, flag instructions and SMSTART/SMSTOP. The new value of the output is the specification function of its old one. |
| BranchDecode.DecodeHint | src/decode/branch_sys.rs:865-977 | Hints, named by number and extension. The new value of the output is the specification function of its old one. |
| BranchDecode.DecodeWfxt | src/decode/branch_sys.rs:995-1010 | WFET and WFIT. The new value of the output is the specification function of its old one. |
| BranchDecode.DecodeBarrier | src/decode/branch_sys.rs:1015-1091 | Barriers. The new value of the output is the specification function of its old one. |
| BranchDecode.DecodeSys | src/decode/branch_sys.rs:1126-1201 | SYS, SYSL and their aliases. The new value of the output is the specification function of its old one. |
| BranchDecode.DecodeGcsSys | src/decode/branch_sys.rs:1211-1240 | The guarded-control-stack forms. The new value of the output is the specification function of its old one. |
| BranchDecode.DecodeSystemResult | src/decode/branch_sys.rs:1247-1268 | TSTART and TTEST. The new value of the output is the specification function of its old one. |
| BranchDecode.DecodeSysregMove | src/decode/branch_sys.rs:1273-1293 | MSR and MRS. The new value of the output is the specification function of its old one. |
| BranchDecode.DecodeSystemPair | src/decode/branch_sys.rs:1311-1350 | MRRS, MSRR and SYSP. The new value of the output is the specification function of its old one. |
| BranchDecode.DecodeSysp | src/decode/branch_sys.rs:1357-1392 | SYSP and TLBIP. The new value of the output is the specification function of its old one. |
| BranchDecode.Decode | src/decode/branch_sys.rs:70-138 | The whole group: the order of its tests fills the output with the one class the word belongs to. |
| DecodedTable.BranchIs | src/decode/branch_sys.rs:70-138 | For every word of the group, every gate, directory and address, it decodes to the row that a flat table has for the word under literal masks: encoding, mnemonic, operands and labels written out, or nothing. |
| DecodedTable.DecoderIsTable | src/decode/mod.rs:58-95 | So does the top of the tree, UDF and the Apple clusters included: the decode tree refines the table. |
| DecodedTable.CompareNames | src/mnemonic.rs:196-199 | A compare-and-branch is named CBZ iff word<24> is 0 and CBNZ iff it is 1, whatever its width. |
| DecodedTable.OtherGroups | src/decode/mod.rs:58-95 | Every other word goes to the decoder of its group by word<28:25>, under literal masks; two values have none. |
| TableLaws.ExceptionIs | src/decode/branch_sys.rs:515-580 | Exceptions, TCANCEL and TENTER: the rows of the block and nothing else. |
| TableLaws.TchangeIs | src/decode/branch_sys.rs:603-645 | TCHANGEF and TCHANGEB by word<18>, register and immediate, with and without `nb`. |
| TableLaws.FusedIs | src/decode/branch_sys.rs:306-389 | The fused compare-and-branch forms: register by size and condition, and immediate. |
| TableSystem.HintByIs | src/decode/branch_sys.rs:865-977 | HINT #n for every n: its name, or its number, under every gate. |
| TableSystem.Op0Is | src/decode/branch_sys.rs:652-760 | The whole of op0 == 00: a named row, nothing where its extension is off, and otherwise a move of the system register in word<20:5>. |
| DecodedTable.SysIs | src/decode/branch_sys.rs:1126-1201 | SYS and SYSL: the RCTX operations, the guarded-control-stack rows, the directory and the numbered form. |
| DecodedTable.PairBlockIs | src/decode/branch_sys.rs:1311-1350 | MRRS, MSRR, SYSP and TLBIP. |
| DecodedFlow.DecodedFlowIsRow | src/instruction.rs:157-196 | For every word decoded here the flow of control, also in the access report, and the extension of the encoding are the literal ones of its row. |
| DecodedFlow.BranchTests | src/instruction.rs:267-288 | A valid B.cond or BC.cond tests the condition of word<3:0>. |
| DecodedFlow.FusedTests | src/instruction.rs:267-288 | A valid fused compare tests the condition that its field names, listed literally for registers and immediates. |
| DecodedFlow.ConditionNames | src/enums.rs:78-80 | The sixteen conditions by number. |
| BranchLaws.SppcReach | src/decode/branch_sys.rs:209-213 | A word decodes to a target iff the target lies imm16 words behind, wrapping included; the encoder takes a target iff some imm16 reaches it, lays that one down, and no second one does. |
| SystemLaws.PauthHintSelected | src/decode/branch_sys.rs:981-984 | Every pointer-authentication alias of HINT is encoded to the very selector it was chosen by. |
| BranchValidity.ReplayDecides | src/decode/branch_sys.rs:756-760 | Naming under every extension fails iff naming fails under every feature set, for every word and address. |
| BranchValidity.AllFeaturesDecide | src/decode/branch_sys.rs:756-760 | The same for the constant the code replays with. |
| BranchValidity.InvalidLeavesOut | src/decode/branch_sys.rs:714-742 | A failed named dispatch leaves its output alone, so the fallback starts from a clean value. |
| BranchLaws.CondBranchRoundTrip | src/encode/branch_sys.rs:205-214 | Decoding then encoding conditional branches gives the word, with ignored fields at their fixed values. |
| BranchLaws.SppcRoundTrip | src/encode/branch_sys.rs:226-249 | Decoding then encoding the PAuth-LR returns gives the word, with ignored fields at their fixed values. |
| BranchLaws.CompareBranchRoundTrip | src/encode/branch_sys.rs:268-280 | Decoding then encoding CBZ and CBNZ gives the word, with ignored fields at their fixed values. |
| BranchLaws.TestBranchRoundTrip | src/encode/branch_sys.rs:284-296 | Decoding then encoding TBZ and TBNZ, for every bit number gives the word, with ignored fields at their fixed values. |
| BranchLaws.CmpbrRegRoundTrip | src/encode/branch_sys.rs:319-402 | Decoding then encoding the fused compare-and-branch register forms gives the word, with ignored fields at their fixed values. |
| BranchLaws.UncondRoundTrip | src/encode/branch_sys.rs:256-261 | Decoding then encoding B and BL gives the word, with ignored fields at their fixed values. |
| BranchLaws.RegBranchRoundTrip | src/encode/branch_sys.rs:410-453 | Decoding then encoding register branches, left-out operands included gives the word, with ignored fields at their fixed values. |
| BranchLaws.ExceptionRoundTrip | src/encode/branch_sys.rs:462-494 | Decoding then encoding exception generation, left-out immediates included gives the word, with ignored fields at their fixed values. |
| BranchLaws.TchangeRoundTrip | src/encode/branch_sys.rs:105-133 | Decoding then encoding TCHANGE gives the word, with ignored fields at their fixed values. |
| SystemLaws.HintRoundTrip | src/encode/branch_sys.rs:502-586 | Decoding then encoding hints, named or numbered gives the word, with ignored fields at their fixed values. |
| SystemLaws.WfxtRoundTrip | src/encode/branch_sys.rs:593-601 | Decoding then encoding WFET and WFIT gives the word, with ignored fields at their fixed values. |
| SystemLaws.BarrierRoundTrip | src/encode/branch_sys.rs:608-660 | Decoding then encoding barriers gives the word, with ignored fields at their fixed values. |
| SystemLaws.MoveRoundTrip | src/encode/branch_sys.rs:776-805 | Decoding then encoding MSR and MRS gives the word, with ignored fields at their fixed values. |
| SystemLaws.GcsRoundTrip | src/encode/branch_sys.rs:906-929 | Decoding then encoding the guarded-control-stack forms gives the word, with ignored fields at their fixed values. |
| SysAliasLaws.SysTableRoundTrip | src/encode/branch_sys.rs:815-900 | Decoding then encoding SYS, SYSL and the directory aliases gives the word, with ignored fields at their fixed values. |
| SysAliasLaws.PairMoveRoundTrip | src/encode/branch_sys.rs:960-989 | Decoding then encoding MRRS and MSRR gives the word, with ignored fields at their fixed values. |
| SysAliasLaws.SyspRoundTrip | src/encode/branch_sys.rs:995-1029 | Decoding then encoding SYSP and TLBIP gives the word, with ignored fields at their fixed values. |
| RoundTrip.PstateRoundTrip | src/encode/branch_sys.rs:713-750 | Decoding then encoding PSTATE writes gives the word, with ignored fields at their fixed values. |
| SystemLaws.ResultRoundTrip | src/encode/branch_sys.rs:947-951 | Decoding then encoding TSTART and TTEST gives the word. |
| RoundTrip.EncodeOfDecode | src/encode/branch_sys.rs:27-100 | For every word of the group, every gate and every paired directory, what decodes encodes, to the canonical form of the word. |
| CanonicalForm.CanonicalDecodesTheSame | src/decode/branch_sys.rs:652-760 | The canonical form decodes to the very same instruction, so no meaning is lost. |
| CanonicalForm.UnallocatedIff | src/decode/branch_sys.rs:756-760 | "No feature set names it" as a plain condition on the fields. |
| CanonicalForm.ExactIff | src/encode/branch_sys.rs:27-38 | A word is its own canonical form iff every ignored field holds its fixed value. |
| CanonicalForm.ExactRoundTrip | src/encode/branch_sys.rs:27-38 | A valid word survives decoding and encoding bit for bit iff its ignored fields hold their fixed values. |
| DecodeTree.DecodeLosesOnlyIgnoredFields | src/decode/mod.rs:58-143 | Two words that decode to one encoding, mnemonic and operand list have one canonical form, and are equal when both are exact. |
| CanonicalForm.HintLosesOp1 | src/encode/branch_sys.rs:27-38 | A NOP with another op1 decodes, and encodes to a different word, under every feature set and directory. |
| Relocation.DecodingCommutesWithRelocation | src/instruction.rs:567-582 | Decoding at one address and relocating is decoding at the other, marked iff there is a label, for every word and gate. |
| Retarget.BranchReach | src/instruction.rs:237-253 | Every decoded direct branch reports the target of its immediate field, a multiple of 4 within the reach of its class. |
| Retarget.RetargetEncodesIffReachable | src/instruction.rs:857-864 | Editing the target of a decoded branch and encoding succeeds iff the target is within reach, and the new word decodes to the edited instruction. |
| Monotone.DecodingIsStable | src/decode/branch_sys.rs:70-138 | Under more extensions a valid word decodes alike, the hints an extension names and the guarded-control-stack forms apart. |
| Monotone.RereadIff | src/decode/branch_sys.rs:70-138 | Those words are exactly the ones that two nested feature sets read as different instructions. |
| Monotone.ValidityIsMonotone | src/decode/branch_sys.rs:652-760 | A word valid under a feature set is valid under every larger one. |
| Reencode.DirectBranchReturnsIff | src/encode/branch_sys.rs:52-64 | A direct branch with any operands, if it encodes, decodes to itself iff its mnemonic is that of its encoding, its operands are of the kinds the decoder makes, and its extension is accepted. |
| Returns.RegBranchReturnsIff | src/encode/branch_sys.rs:410-453 | A branch to a register with any operands, if it encodes, decodes to itself iff its mnemonic is that of its encoding, its extension is accepted and its operands are plain X registers as the decoder writes them: no SP to branch to, no X30 for RET, no XZR to authenticate with. |
| Returns.ExceptionReturnsIff | src/encode/branch_sys.rs:462-494 | An exception, likewise, iff its operand is one unsigned number: not 0 for DCPS, at most 127 for TENTER, which may end in `nb`. |
| CommittedEdits.ReturnsIffDecoded | src/encode/mod.rs:71-93 | Whatever encodes, edited or built by hand, in every group here, decodes to itself iff the decoder makes it from any word at all. |
| EncoderLaws.OnlyWhatFits | src/encode/branch_sys.rs:27-100 | For every instruction, decoded or built by hand: if it encodes, every number (its low 32 bits, where the encoder first converts to `u32`) is below what its field holds, every pair is an even register and its neighbour, and every label is within reach, TENTER and the fields that are cut down by design apart; an immediate is called invalid only where one is not, and an encoding iff there is none or none that the encoder knows. |
| EncoderLaws.MisfitIsImmediate | src/encode/branch_sys.rs:27-100 | Conversely, where all operands are of the kinds the encoder reads and something does not fit, the error is that of an invalid immediate. |
| EncoderLaws.OnlyKnownKeywords | src/encode/branch_sys.rs:502-755 | What encodes names only keywords that its encoding knows, for hints, barriers, PSTATE, SMSTART and TCHANGE. |
| CommittedEdits.StackPointerIsLost | src/encode/branch_sys.rs:410-453 | BR of SP encodes and comes back as BR of XZR. |
| Reencode.NarrowRegisterIsLost | src/encode/branch_sys.rs:268-280 | CBZ of 64 bits with W1, as the unchecked setter leaves it, encodes and comes back with X1. |
| Reencode.HighBitIsLost | src/encode/branch_sys.rs:284-296 | TBZ of bit 2^32 encodes and comes back as bit 0. |
| Gates.GateSoundness | src/decode/branch_sys.rs:865-1047 | Every valid result, SMSTART and SMSTOP apart, has its extension enabled. |
| SysDirectory.Lookup | src/tables/sysins.rs:74-91 | The first row of a selector. |
| SysDirectory.LookupByName | src/tables/sysins.rs:97-107 | The first row of a mnemonic and operation name. |
| SysDirectory.DirectoryIsPaired | src/tables/sysins.rs:72-105 | Rows without a repeated name and with the operand layouts the encoder assumes make the two searches inverse. |
| SysListing.OpsAreKeyed | src/tables/sysins.rs:113-482 | The operations of every mnemonic of the literal table: no keyword comes twice, and only APAS and TRCIT have none. |
| SysRows.OrderIsFree | src/tables/sysins.rs:113-482 | That no name comes twice does not depend on the order of the rows. |
| SysRows.ShippedIsPaired | src/tables/sysins.rs:3-16 | The literal rows, in any order, are well formed, so the decoder and the encoder read them in lockstep. |
| ShippedDirectory.NamesOperations | src/tables/sysins.rs:113-482 | No row is named after an instruction on the flags. |
| ShippedDirectory.OperationsOnly | src/tables/sysins.rs:113-482 | Every row is named after an operation, so that none transfers control. |
| ShippedDirectory.RoundTrip | src/encode/mod.rs:67-93 | With the literal rows on both sides, whatever a word of these groups decodes to encodes to its canonical form: nothing is asked of the directory. |
| ShippedDirectory.ExactRoundTrip | src/encode/branch_sys.rs:27-38 | And to the word itself iff its ignored fields hold their fixed values. |
| ShippedDirectory.FlagsRightIff | src/info.rs:148-170 | With the literal rows, when the scalar flags are right about reading and about writing. |
| Apple.DecodeApple | src/decode/apple.rs:52-68 | The two clusters under their extensions; anything else leaves the output alone. |
| Apple.DecodeAmx | src/decode/apple.rs:73-112 | The coprocessor operations with their register, and the two bare ones. |
| Apple.DecodeGxf | src/decode/apple.rs:117-131 | GENTER with its immediate and GEXIT. |
| Apple.EncodeOfDecode | src/encode/apple.rs:59-108 | Every word the clusters accept encodes back to itself. |
| Apple.DecodeOfEncode | src/encode/apple.rs:59-108 | Whatever encodes to a word decodes, with both extensions, to the same encoding and the same register number or immediate. |
| Apple.AppleGateSoundness | src/decode/apple.rs:52-68 | Every valid result has its extension enabled. |
| DecodeTree.DecodeInto | src/decode/mod.rs:58-95 | The output is the decode of the word whatever it held before, by op0. |
| DecodeTree.DecodeReserved | src/decode/mod.rs:115-143 | UDF, the Apple clusters, SME in the upper half, in that order. |
| DecodeTree.ClassesAreRouted | src/decode/mod.rs:58-95 | Every class of the branch group lies within the op0 values routed to it. |
| DecodeTree.TreeRoundTrip | src/encode/mod.rs:78-93 | Decode then encode at the top of the tree gives the canonical word. |
| DecodeTree.TreeCommutesWithRelocation | src/instruction.rs:567-582 | Relocation commutes with decoding at the top of the tree, UDF and Apple included. |
| DecodeTree.TreeValidityIsMonotone | src/decode/mod.rs:58-143 | Validity is monotone in the feature set at the top of the tree. |
| DecodeTree.TreeGateSoundness | src/decode/mod.rs:58-143 | Gate soundness at the top of the tree. |
| StreamingDecoder.Decoder.constructor | src/decoder.rs:48-50 | The cursor at the start of the slice. |
| StreamingDecoder.Decoder.DecodeInto | src/decoder.rs:127-156 | The output, the error and the new cursor, short tail included, whatever the output held; `Streams.ItemIsSpelt` says which word was read. |
| StreamingDecoder.Decoder.Decode | src/decoder.rs:110-114 | The same into a fresh instruction. |
| StreamingDecoder.Decoder.CanDecode | src/decoder.rs:169-173 | Whether a whole word remains. |
| StreamingDecoder.Decoder.SetPosition | src/decoder.rs:184-191 | The address moves with the position, wrapping, in either direction and past the end. |
| StreamingDecoder.Decoder.SetIp | src/decoder.rs:201-203 | The address alone. |
| StreamingDecoder.Decoder.Next | src/decoder.rs:236-242 | Decodes iff a whole word remains; otherwise nothing changes. |
| StreamingDecoder.Collect | src/decoder.rs:229-283 | Iteration ends after exactly (len-p)/4 items, item k being the decode, at its own wrapped address, of the word its four bytes spell. |
| Streams.StreamIsMap | src/decoder.rs:229-283 | The sequence the iterators yield has one item for each whole word left, item k being what the decoder makes, at the address of its chunk, of the word that the four bytes of the chunk spell, lowest byte first. |
| Streams.WordIsSpelt | src/decoder.rs:139-140 | A word is the one read at a position iff byte k of it, from its low end, is byte k of the slice there, for k up to 3. |
| Streams.ItemIsSpelt | src/decoder.rs:127-156 | Where a word remains, decoding yields what the decoder makes of the word that the bytes there spell, and no other. |
| Streams.NopIsSpelt | src/decoder.rs:139-140 | The bytes 1f 20 03 d5 spell 0xd503201f. |
| Streams.SeekArrives | src/decoder.rs:184-191 | Seeking gives the position asked for, the address as far ahead of the origin as the position is, and the error as it was. |
| Streams.StreamStops | src/decoder.rs:229-283 | It ends with the cursor after the last whole word and the address with it. |
| Streams.OriginIsKept | src/decoder.rs:184-191 | Over any mix of decoding and seeking the address minus the position is constant modulo 2^64. |
| Streams.PathIndependence | src/decoder.rs:184-191 | Two ways to one position give one address and one stream. |
| Streams.LastErrorTells | src/decoder.rs:214-216 | The error tells a valid decode, an invalid one and a short tail apart. |
| Streams.StreamSplits | src/decoder.rs:229-283 | A buffer fed in two parts of whole words yields the two streams one after the other. |
| StreamingDecoder.StreamRelocates | src/decoder.rs:127-156 | The same bytes at another address yield the same instructions relocated. |
| Access.MergeIsJoin | src/info.rs:92-100 | Merging is commutative, associative and idempotent with identity None, and is the least access that includes both. |
| Access.MergeAddsUp | src/info.rs:92-100 | It reports reading and writing exactly when one of the two does, except for a plain access merged with a conditional one of its kind. |
| Access.AccessList.constructor | src/implicit.rs:70-78 | An empty list of a capacity. |
| Access.AccessList.Add | src/implicit.rs:84-98 | Ignores empty accesses, merges into an entry, or appends while there is room. |
| Access.AccessList.Find | src/implicit.rs:127-134 | The access of the first entry of the register, or none. |
| Access.ListRefinesMap | src/implicit.rs:84-98 | Any run of adds: no duplicates, the join of all adds for every register held, and no register missing iff those named fit. |
| Access.ListIsMap | src/info.rs:594-608 | Within capacity the list is the map from registers to joins. |
| Access.JoinIgnoresOrder | src/info.rs:594-608 | The joins depend only on the set of adds, not on order or repetition. |
| Implicit.AddNzcv | src/implicit.rs:244-254 | The adds of the flags rule, in order. |
| Implicit.AddLinkRegister | src/implicit.rs:263-279 | The adds of the link register rule, in order. |
| Implicit.AddPointerAuth | src/implicit.rs:291-324 | The adds of the pointer authentication rule, in order. |
| Implicit.AddLs64Group | src/implicit.rs:333-363 | The adds of the 64-byte transfers rule, in order. |
| Implicit.AddFfr | src/implicit.rs:371-388 | The adds of the first-fault register rule, in order. |
| Implicit.AddSmeState | src/implicit.rs:407-419 | The adds of the ZA array rule, in order. |
| Implicit.AddPc | src/implicit.rs:430-451 | The adds of the program counter rule, in order. |
| Implicit.ImplicitRegisters | src/implicit.rs:228-241 | The list is what the seven rules add in their order. |
| Implicit.AtMostNine | src/implicit.rs:51-55 | For every mnemonic and operand list at most nine accesses are added, so the capacity of ten never refuses one. |
| Implicit.ImplicitIsComplete | src/implicit.rs:84-98 | The list is duplicate-free and gives every register the join of all its implicit accesses. |
| Implicit.Ls64GroupIs | src/implicit.rs:333-363 | The companions are exactly the seven registers after the data register, all within X1..X29. |
| Implicit.NzcvEntryIsTheFlags | src/implicit.rs:215-217 | The NZCV entry reads iff a condition or the carry is consumed and writes iff the flags are set. |
| Implicit.PcEntry | src/implicit.rs:430-451 | PC is read exactly by the authentications that fold it in and by labels without control transfer, and never written. |
| Implicit.SppcReturnSkipsPc | src/implicit.rs:430-451 | RETAASPPC and RETABSPPC are not reported to read PC. |
| DecodedInfo.RetaasppcSkipsPc | src/register.rs:408-414 | The word 0x5500001f is such an instruction, at every address. |
| Implicit.LinkEntry | src/implicit.rs:263-279 | Calls write the link register; returns read it iff they go through it unnamed; neither does more. |
| ImplicitLaws.LinkRegisterEntry | src/implicit.rs:263-331 | The entry of X30 for every instruction, by literal lists of names: read and written by what signs, strips or authenticates it in place, written by the calls, read by RET without an operand and the signed returns, and otherwise absent. |
| ImplicitLaws.SpEntry | src/implicit.rs:291-324 | SP is read by the forms that sign X30 with it and by the signed returns, ERETAA and ERETAB included, and by nothing else. |
| ImplicitLaws.GeneralEntry | src/implicit.rs:291-370 | The entry of every other general register: X17 read and written and X16 read by the four 1716 forms; the seven registers after the data register of LD64B written, of ST64B, ST64BV and ST64BV0 read; otherwise absent. |
| ImplicitLaws.FfrEntry | src/implicit.rs:371-388 | FFR: read and written by first-faulting loads, read by non-faulting ones, RDFFR and RDFFRS, written by SETFFR and WRFFR, otherwise absent. |
| ImplicitLaws.ZaEntry | src/implicit.rs:407-419 | ZA is written by SMSTART and SMSTOP unless their operand is SM, and otherwise absent. |
| ImplicitLaws.EffectByName | src/instruction.rs:206-225 | How an instruction sets the flags, as integer operations do, as floating-point comparisons do, or otherwise, by literal lists of names. |
| ImplicitLaws.NzcvEntry | src/implicit.rs:244-254 | The NZCV entry by literal lists of names, and the condition. |
| ImplicitLaws.PcEntryByName | src/implicit.rs:430-451 | The PC entry by the literal list of the six names that fold it in. |
| ImplicitLaws.NothingElse | src/implicit.rs:228-241 | No other register is ever in the list. |
| DecodedImplicit.HintRegisters | src/implicit.rs:291-324 | The report of each of the fourteen signing hints, by the number in the word: X30 read and written for 7 and 24 to 31, SP read for 25, 27, 29 and 31, X17 read and written and X16 read for 8, 10, 12 and 14, and none of them otherwise. |
| DecodedImplicit.RegisterBranchRegisters | src/implicit.rs:263-331 | For every valid branch to a register, by literal masks of the word: X30 written by calls and read by the returns that go through it, SP read by the signed returns, and otherwise absent. |
| DecodedImplicit.StreamRegisters | src/implicit.rs:407-419 | SMSTART and SMSTOP write ZA unless CRm names SM alone. |
| Info.InfoBuilder.constructor | src/info.rs:573-588 | Empty lists. |
| Info.InfoBuilder.AddOperandRegs | src/info.rs:630-687 | The registers an operand carries, each with its access, in order. |
| Info.InfoBuilder.AddMemoryOperand | src/info.rs:717-742 | Base and index with their accesses and the memory entry, while there is room. |
| Info.InfoBuilder.AddMemory | src/info.rs:612-622 | Appends while there is room. |
| Info.InfoBuilder.TakeOperands | src/info.rs:876-990 | Every operand by the use its form and slot give it. |
| Info.IsMopsRmw | src/info.rs:698-710 | Whether some operand has a shape of the copy and set family. |
| Info.FindMemory | src/info.rs:806-813 | The first memory operand. |
| Info.Classify | src/info.rs:815-849 | The form of the instruction. |
| Info.ComputeInfo | src/info.rs:800-875 | The whole report: explicit accesses by form, implicit ones folded in, flow and flags. |
| InfoLaws.InfoIsMap | src/info.rs:800-875 | The report is duplicate-free, complete iff the accessed registers fit, and then gives each the join of explicit and implicit accesses. |
| InfoLaws.ImplicitIsIncluded | src/info.rs:851-861 | Every implicit access is part of the reported one. |
| InfoLaws.FlagsAgree | src/info.rs:863-874 | The NZCV entry is the scalar flags, plus what operands naming NZCV add. |
| InfoLaws.SlimFits | src/info.rs:58-61 | Operands of at most two registers never fill the report: five of them and nine implicit ones make nineteen. |
| InfoLaws.OperandIsReported | src/info.rs:630-687 | Every register an operand carries as data is reported, whatever the form. |
| InfoLaws.AddressIsReported | src/info.rs:717-742 | The registers of the address are reported as read, and with the write-back. |
| InfoLaws.MemoryIsReported | src/info.rs:878-951 | Outside the copy and set family the memory list is the first memory operand, or empty. |
| InfoLaws.MemoryIsFirstTwo | src/info.rs:612-622 | For every form the memory list is the first two addresses used, and complete iff there are no more. |
| InfoLaws.TransferWritesOnlyLink | src/info.rs:836-846 | A control transfer writes no register but the link register, and that iff it is a call. |
| InfoLaws.DataFormWrites | src/info.rs:958-991 | Of the operands of a data-processing form only slot 0 is written, and not even that without a destination. |
| FormLaws.MemoryReport | src/info.rs:878-951 | Every register of a load, store or atomic: written iff it is data that the kind writes (all of it for a load, slot 0 of an exclusive store, the slot before the address of a read-modify-write, the first half of a compare-and-swap, a predicate past slot 0 never), a base written back, or implicit; read likewise. |
| FormLaws.MemoryEntry | src/info.rs:878-951 | Its one memory entry: base, index and displacement of the first address, read for loads and prefetches, written for stores, both for the atomic kinds. |
| FormLaws.MopsReport | src/info.rs:808-821 | Every register of a copy or set: written and read where it has an exclamation mark, read elsewhere. |
| FormLaws.OtherMemory | src/info.rs:717-745 | The memory entries of the copy and set family, read and written, and of a data-processing form, read: the first two. |
| FormLaws.TransferReport | src/info.rs:836-846 | Every register of a control transfer: all operands are read, and what is written is implicit. |
| FormLaws.DataReport | src/info.rs:958-991 | Every register of a data-processing form: slot 0 written unless there is no destination, and read too iff the form accumulates or merges; the rest read. |
| InfoLaws.WideGroupIsCutShort | src/info.rs:594-608 | A group of more than twenty consecutive vectors loses a register. |
| InfoLaws.TwentyOneVectors | src/info.rs:594-608 | Z0 and the twenty vectors after it are such a group, under any encoding. |
| InfoLaws.ConditionalNeverArises | src/info.rs:78-100 | For every instruction, edited or decoded, no access attributed or reported is a conditional one. |
| InfoLaws.ReturnTargetIsRead | src/implicit.rs:263-279 | Every decoded RET reports a read of the register it returns through, spelt out or not. |
| DecodedInfo.DecodedReportIsComplete | src/info.rs:800-875 | For every word decoded here, under every feature set: the report names every register touched, each with the join of its accesses, and no memory. |
| DecodedInfo.DecodedFlagsAgree | src/info.rs:862-874 | For every word decoded here the scalar flags are what the list says of NZCV. |
| FlagReport.FlagsReported | src/implicit.rs:215-217 | For every word decoded here, under every feature set and directory: the scalar flags as conditions on word fields. |
| FlagReport.ReadRightIff | src/implicit.rs:215-217 | The report is right about reading NZCV iff the word is no fused compare, no B or BC with AL or NV, not MRS of NZCV, and none that saves the flags with the rest of the state (SVC, HVC, SMC, BRK, HLT, TENTER, TSTART). |
| FlagReport.WriteRightIff | src/info.rs:862-874 | It is right about writing iff the word is neither MSR of NZCV nor MRS of a random number, and none that restores the flags with the rest of the state (ERET, ERETAA, ERETAB, DRPS, TCANCEL). |
| FlagReport.FusedMisread | src/implicit.rs:215-217 | Every valid fused compare is reported to read the flags and reads none, under every directory. |
| FlagReport.UnnamedUnreported | src/implicit.rs:215-217 | No MSR or MRS is reported to touch the flags, whatever register it moves (op0 = 0, 2 or 3); nor is anything else in the system block but SYS and the flag operations, nor any exception, return or branch to a register. |
| FlagReport.ReadWrongFor | src/info.rs:148-160 | B.AL, a fused compare and MRS X0, NZCV as instances. |
| FlagReport.WriteWrongFor | src/info.rs:161-170 | ERET, MSR NZCV, X0 and MRS X0, RNDR as instances. |
| DecodedInfo.DecodedTransferWritesOnlyLink | src/info.rs:836-861 | For every word decoded here a control transfer writes no register but the link register, and that iff it is a call. |
| SystemRegisters.PackOfFields | src/sysreg.rs:44-71 | A selector is the packing of its fields. |
| SystemRegisters.FieldsOfPack | src/sysreg.rs:19-27 | A field is read back iff it fits its width: four values of op0. |
| SystemRegisters.LayDigits | src/sysreg.rs:147-161 | For every u32 the loop stays within ten bytes and leaves the canonical digits. |
| SystemRegisters.DecimalIsCanonical | src/sysreg.rs:147-161 | Digits only, no leading zero, read back as the number. |
| SystemRegisters.ByteSink.WriteStr | src/sysreg.rs:171-180 | All of the text or none, and a refusal is remembered. |
| SystemRegisters.ByteSink.WriteDec | src/sysreg.rs:147-161 | Writes the canonical digits iff they fit. |
| SystemRegisters.Render | src/sysreg.rs:93-111 | The name or the generic form, iff it fits. |
| SystemRegisters.RenderTo | src/sysreg.rs:119-142 | The complete token, or None exactly when the buffer is too small. |
| SystemRegisters.UnnamedNeverAlike | src/sysreg.rs:93-111 | Two different registers without a name never render alike. |
| SystemRegisters.NamedToken | src/sysreg.rs:119-142 | The token of a register with a name is the name, for `render` as well. |
| SystemRegisters.UnnamedToken | src/sysreg.rs:119-142 | The token of a register without a name is "s", op0, "_", op1, "_c", CRn, "_c", CRm, "_", op2 in decimal, for all fields in range; without the "s" for `render`. |
| SystemRegisters.FourteenBytes | src/sysreg.rs:121-126 | Every unnamed token takes 12 to 14 bytes, 14 exactly when both CRn and CRm have two digits. |

## Left out

- Decoders and encoders of the SVE, SME, SIMD and floating-point, load/store and
  data-processing groups: a parameter of the top of the tree; the theorems there are for
  the words that the branch group, UDF and the Apple clusters decode.
- `adv_simd_expand_imm`, `vfp_expand_imm` and their inverses: finite tables.
- `PACM` and the `AUTIASPPC`/`AUTIBSPPC` label forms, which the data-processing decoder
  produces.
- Bits.DecodeBitMasks: for m = 32 with immN = 1 only the value of the code is stated, not a
  meaning; its callers reject that case.
- Info.InfoBuilder.AddGroup: the register number runs by repeated addition of the stride
  where the source multiplies; both are taken modulo 32.
- Info.ComputeInfo: the tables `classify_mem`, `accumulates_into_dest` and
  `has_no_dest_register` are parameters; of the first only its last line is used, that
  whatever carries a memory operand is classified.
- StreamingDecoder.Collect: stands for any consumer of the iterators; the borrowing and the
  consuming iterator share one model.
- EncoderLaws.OnlyWhatFits: says nothing of the fields that the encoder cuts down by design:
  the number of TENTER, the options of CLREX, ISB, DMB and DSB, and the fields of SYS and
  SYSP.
- EncoderLaws.MisfitIsImmediate: not stated for the fused compares, nor for pairs of
  registers, which are an invalid operand.
- CommittedEdits.ReEncode: an instruction that was edited into another group is refused,
  since the encoders of the other groups are not part of this model.
- SysAliasLaws.SysTableRoundTrip: stated for directories that satisfy `Paired`, which the
  literal rows do (`SysRows.ShippedIsPaired`).
- SysAliasLaws.SyspRoundTrip: likewise.
- `SysToken` and its table of keyword texts: an operand carries the keyword itself.
- The analyses take the value of an instruction rather than the object, which they only
  read.
- A `usize` is 64 bits wide.
- The operands carry their decorations (arrangement, lane, shift, extension) by number.
- Name tables of registers, conditions, mnemonics and keywords; `Condition`, `ShiftType`
  and `ExtendType` conversions other than those the group uses.
- `encode_bytes`: a wrapper.
- The formatter, the GNU adapter, the symbol resolver, the command line, the Cargo
  features and the error texts.
