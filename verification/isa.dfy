/** The vocabulary of a decoded instruction: registers (`src/register.rs`), the small
    enums (`src/enums.rs`), encodings and mnemonics (`src/mnemonic.rs`), operands
    (`src/operand.rs`) and system keywords (`src/sysop.rs`). */
module Isa {
  import opened Wrappers
  import opened Ints
  import opened Features

  // --- Registers. ---

  // The numbers of W0..W30 and X0..X30; 31 is the zero register or the stack pointer.
  type Num31 = n: bv32 | n < 31
  type Num32 = n: bv32 | n < 32
  type Num16 = n: bv32 | n < 16

  datatype Register =
    | NoRegister
    | W(w: Num31) | Wzr | Wsp
    | X(x: Num31) | Xzr | Sp
    | B(b: Num32) | H(h: Num32) | S(s: Num32) | D(d: Num32) | Q(q: Num32) | V(v: Num32)
    | Z(z: Num32) | P(p: Num16) | Pf(pf: Num32)
    | Zt0 | Nzcv | Ffr | Za | Pc

  datatype RegClass = NoClass | Gp | ScalarFp | Vector | Sve | Predicate | Prefetch | ZtLut | Special

  datatype RegWidth = W32 | X64

  function Number(r: Register): Num32 {
    if r.W? then r.w
    else if r.X? then r.x
    else if r.Wzr? || r.Wsp? || r.Xzr? || r.Sp? then 31
    else if r.B? then r.b
    else if r.H? then r.h
    else if r.S? then r.s
    else if r.D? then r.d
    else if r.Q? then r.q
    else if r.V? then r.v
    else if r.Z? then r.z
    else if r.P? then r.p
    else if r.Pf? then r.pf
    else 0
  }

  function Class(r: Register): RegClass {
    match r
    case NoRegister => NoClass
    case W(_) | Wzr | Wsp | X(_) | Xzr | Sp => Gp
    case B(_) | H(_) | S(_) | D(_) | Q(_) => ScalarFp
    case V(_) => Vector
    case Z(_) => Sve
    case P(_) => Predicate
    case Pf(_) => Prefetch
    case Zt0 => ZtLut
    case Nzcv | Ffr | Za | Pc => Special
  }

  function WidthBits(r: Register): nat {
    if r.W? || r.Wzr? || r.Wsp? || r.S? then 32
    else if r.X? || r.Xzr? || r.Sp? || r.D? || r.Pc? then 64
    else if r.B? then 8
    else if r.H? then 16
    else if r.Q? || r.V? then 128
    else if r.Nzcv? then 4
    else 0
  }

  // gp_register: number 31 is SP or the zero register, by the role of the operand.
  function GpRegister(useSp: bool, width: RegWidth, n: bv32): Register {
    var n := n & 31;
    if n == 31 then
      match width
      case W32 => if useSp then Wsp else Wzr
      case X64 => if useSp then Sp else Xzr
    else
      match width
      case W32 => W(n)
      case X64 => X(n)
  }

  // A register operand keeps its number, its width and the role of number 31.
  lemma GpRegisterInvertible(useSp: bool, width: RegWidth, n: bv32)
    ensures var r := GpRegister(useSp, width, n);
            Number(r) == n & 31 && Class(r) == Gp && WidthBits(r) == (if width == X64 then 64 else 32) &&
            (n & 31 == 31 ==> (useSp <==> r in {Sp, Wsp}))
  {
  }

  // sve_register.
  function SveRegister(n: bv32): Register {
    Z(n & 31)
  }

  // --- Conditions and classifications. ---

  datatype Condition = Eq | Ne | Cs | Cc | Mi | Pl | Vs | Vc | Hi | Ls | Ge | Lt | Gt | Le | Al | Nv

  function ConditionFromU4(bits: bv32): Condition {
    var n := bits & 15;
    if n == 0 then Eq
    else if n == 1 then Ne
    else if n == 2 then Cs
    else if n == 3 then Cc
    else if n == 4 then Mi
    else if n == 5 then Pl
    else if n == 6 then Vs
    else if n == 7 then Vc
    else if n == 8 then Hi
    else if n == 9 then Ls
    else if n == 10 then Ge
    else if n == 11 then Lt
    else if n == 12 then Gt
    else if n == 13 then Le
    else if n == 14 then Al
    else Nv
  }

  function ConditionAsU4(c: Condition): bv32 {
    match c
    case Eq => 0
    case Ne => 1
    case Cs => 2
    case Cc => 3
    case Mi => 4
    case Pl => 5
    case Vs => 6
    case Vc => 7
    case Hi => 8
    case Ls => 9
    case Ge => 10
    case Lt => 11
    case Gt => 12
    case Le => 13
    case Al => 14
    case Nv => 15
  }

  datatype FlowControl =
    | Next | UnconditionalBranch | ConditionalBranch | IndirectBranch | Call | IndirectCall | Return | Exception

  datatype FlagEffect = NoFlags | Sets | SetsNormal | SetsFloat

  datatype MemIndexMode = Offset | PreIndex | PreNoOffset | PostImm | PostReg

  datatype PredQual = NoQual | Zeroing | Merging

  // --- System keywords. ---

  datatype Keyword =
    | Nb | Sm | ZaOption | Csync | Dsync | Ph | Keep | Strm | TargetC | TargetJ | TargetJc | Rctx
    | Uao | Spsel | Ssbs | Dit | Tco | DaifSet | DaifClr | Allint
    | Oshld | Oshst | Osh | Nshld | Nshst | Nsh | Ishld | Ishst | Ish | Ld | St | Sy
    | OshNxs | NshNxs | IshNxs | SyNxs
    // c0..c15, and the operation names of the SYS alias directory.
    | Cr(n: bv32)
    | Operation(name: string)

  // --- Operands. ---

  // The decorations of a register operand; the enum-valued ones by discriminant.
  datatype Decoration = Decoration(arr: Option<nat>, lane: Option<nat>, shift: Option<(nat, nat)>,
                                   extend: Option<nat>, pred: Option<PredQual>)

  const PLAIN := Decoration(None, None, None, None, None)

  datatype Operand =
    | NoOperand
    | Reg(reg: Register, deco: Decoration)
    | ImmUnsigned(value: U64)
    | ImmSigned(signed: I64)
    | ImmLogical(value: U64)
    | ImmShiftedMove(imm16: nat, lsl: nat)
    | ImmShiftedMsl(imm16: nat, msl: nat)
    | FpImm(bits: nat)
    | ShiftAmount(amount: nat)
    | Label(target: U64)
    | Cond(cond: Condition)
    | SysReg(sysreg: bv32)
    | SysOp(keyword: Keyword)
    | MemImm(base: Register, disp: I64, mode: MemIndexMode)
    | MemExt(base: Register, index: Register, ext: nat, scale: nat)
    | MultiReg(regs: seq<Register>, listArr: Option<nat>, listLane: Option<nat>)
    | IndexedElement(reg: Register, elemArr: Option<nat>, index: Register, elemImm: I64)
    | SmeTile(tile: nat, slice: nat)
    | ImplSpec(payload: nat)
    | SvePattern(pattern: nat)
    | SveMul(mul: nat)
    | ImmSignedDec(signed: I64)
    | SveMem(base: Register, index: Register, disp32: I32, sveMode: nat)
    | SmeTileSlice(tileReg: Register, sel: Register, sliceImm: nat)
    | RegBang(reg: Register)
    | RegPair(first: Register, second: Register)
    | SmeZaSlice(sel: Register, zaOff: nat)
    | SveVecGroup(first: Register, groupCount: nat, stride: bv32)
    | PredCounter(reg: Register, zeroing: bool, pcArr: Option<nat>, pcIndex: Option<nat>)
    | VlMul(mul: nat)
    | SmeZaMask(mask: nat, zt0: bool)
    | SmeZt0Index(ztIndex: nat, mulVl: bool)

  function PlainReg(useSp: bool, w: RegWidth, n: bv32): Operand {
    Reg(GpRegister(useSp, w, n), PLAIN)
  }

  function XReg(useSp: bool, n: bv32): Operand {
    PlainReg(useSp, X64, n)
  }

  // --- Encodings. ---

  datatype AppleOp =
    | AmxLdx | AmxLdy | AmxStx | AmxSty | AmxLdz | AmxStz | AmxLdzi | AmxStzi | AmxExtrx | AmxExtry | AmxFma64
    | AmxFms64 | AmxFma32 | AmxFms32 | AmxMac16 | AmxFma16 | AmxFms16 | AmxSet | AmxClr | AmxVecint | AmxVecfp
    | AmxMatint | AmxMatfp | AmxGenlut | Genter | Gexit

  datatype Code =
    | Invalid
    | BCond | BUncond | BlImm | BcCond | Cbz32 | Cbz64 | Cbnz32 | Cbnz64 | Tbz | Tbnz
    | Cbgt | Cbge | Cbhi | Cbhs | Cbeq | Cbne | Cblt | Cblo | Cbbgt | Cbbge | Cbbhi | Cbbhs | Cbbeq | Cbbne
    | Cbhgt | Cbhge | Cbhhi | Cbhhs | Cbheq | Cbhne
    | Br | Blr | Ret | Eret | Drps | Braaz | Brabz | Blraaz | Blrabz | Braa | Brab | Blraa | Blrab | Retaa
    | Retab | Eretaa | Eretab
    | Retaasppc | Retabsppc | Retaasppcr | Retabsppcr
    | Svc | Hvc | Smc | Brk | Hlt | Dcps1 | Dcps2 | Dcps3 | Tcancel | Tenter
    | Nop | Yield | Wfe | Wfi | Sev | Sevl | Esb | Psb | Csdb | Bti | HintGeneric | Tsb | Gcsb | Shuh | Stshh
    | Stcph | Chkfeat | Dgh | Clrbhb | Wfet | Wfit
    | Clrex | Dmb | Dsb | Isb | Sb | Tcommit | Cfinv | Xaflag | Axflag | MsrImm | Smstart | Smstop | MsrReg
    | Mrs | Sys | Sysl
    | Tstart | Ttest | Mrrs | Msrr | Sysp | Gcspushm | Gcspopm | Gcsss1 | Gcsss2 | Gcspushx | Gcspopx
    | Gcspopcx
    | TchangefReg | TchangebReg | TchangefImm | TchangebImm | Udf
    // The clusters of Apple silicon.
    | AppleCode(apple: AppleOp)
    // Any encoding outside these groups, with its default mnemonic.
    | OtherCode(id: nat, spelling: nat)

  datatype Mnemonic =
    // The name that an encoding has to itself is written as the encoding.
    | Own(code: Code)
    // Names that encodings share.
    | B | Cbz | Cbnz | Msr | Tchangef | Tchangeb
    // Aliases of HINT, DSB, SYS and SYSP.
    | Xpaclri | Pacia1716 | Pacib1716 | Autia1716 | Autib1716 | Paciaz | Paciasp | Pacibz | Pacibsp | Autiaz
    | Autiasp | Autibz | Autibsp | Pacm | Ssbb | Pssbb | Cfp | Dvp | Cpp | Tlbi | Tlbip | Gicr | Apas | Trcit
    | Ic | Dc | At | Plbi | Mlbi | Gic | Gsb | Brb | Cosp
    // Those of other groups, by number.
    | OtherMnemonic(id: nat)

  // The numbers of those that the access and flow analyses single out.
  const ADDS := 1
  const SUBS := 2
  const ADCS := 3
  const SBCS := 4
  const ANDS := 5
  const BICS := 6
  const NEGS := 7
  const NGCS := 8
  const CMP := 9
  const CMN := 10
  const TST := 11
  const CCMP := 12
  const CCMN := 13
  const FCMP := 14
  const FCMPE := 15
  const FCCMP := 16
  const FCCMPE := 17
  const RMIF := 18
  const SETF8 := 19
  const SETF16 := 20
  const RDFFRS := 21
  const ADC := 22
  const SBC := 23
  const NGC := 24
  const CSEL := 25
  const CSINC := 26
  const CSINV := 27
  const CSNEG := 28
  const CINC := 29
  const CINV := 30
  const CNEG := 31
  const CSET := 32
  const CSETM := 33
  const FCSEL := 34
  const PACIASPPC := 35
  const PACIBSPPC := 36
  const PACNBIASPPC := 37
  const PACNBIBSPPC := 38
  const AUTIASPPC := 39
  const AUTIBSPPC := 40
  const AUTIASPPCR := 41
  const AUTIBSPPCR := 42
  const LD64B := 43
  const ST64B := 44
  const ST64BV := 45
  const ST64BV0 := 46
  const SETFFR := 47
  const WRFFR := 48
  const RDFFR := 49
  const LDFF1B := 50
  const LDFF1H := 51
  const LDFF1W := 52
  const LDFF1D := 53
  const LDFF1SB := 54
  const LDFF1SH := 55
  const LDFF1SW := 56
  const LDNF1B := 57
  const LDNF1H := 58
  const LDNF1W := 59
  const LDNF1D := 60
  const LDNF1SB := 61
  const LDNF1SH := 62
  const LDNF1SW := 63

  // Code::mnemonic.
  function MnemonicOf(c: Code): Mnemonic {
    if c.BCond? || c.BUncond? then Mnemonic.B
    else if c.Cbz32? || c.Cbz64? then Mnemonic.Cbz
    else if c.Cbnz32? || c.Cbnz64? then Mnemonic.Cbnz
    else if c.MsrImm? || c.MsrReg? then Mnemonic.Msr
    else if c.TchangefReg? || c.TchangefImm? then Mnemonic.Tchangef
    else if c.TchangebReg? || c.TchangebImm? then Mnemonic.Tchangeb
    else if c.OtherCode? then OtherMnemonic(c.spelling)
    else Own(c)
  }

  function ForeignNumber(m: Mnemonic): nat { if m.OtherMnemonic? then m.id else 0 }

  // The encoding whose own name it is.
  function OwnerOf(m: Mnemonic): Code { if m.Own? then m.code else Code.Invalid }

  // The fused compare-and-branch forms.
  predicate IsCmpbr(c: Code) {
    || c.Cbgt? || c.Cbge? || c.Cbhi? || c.Cbhs? || c.Cbeq? || c.Cbne? || c.Cblt? || c.Cblo?
    || c.Cbbgt? || c.Cbbge? || c.Cbbhi? || c.Cbbhs? || c.Cbbeq? || c.Cbbne?
    || c.Cbhgt? || c.Cbhge? || c.Cbhhi? || c.Cbhhs? || c.Cbheq? || c.Cbhne?
  }

  // Code::feature, for the encodings named above.
  function FeatureOf(c: Code): Feature {
    if c.AppleCode? then (if c.apple.Genter? || c.apple.Gexit? then Feature.Gxf else Feature.AppleAmx)
    else if c.BcCond? then Feature.Hbc
    else if IsCmpbr(c) then Feature.Cmpbr
    else if c.Braaz? || c.Brabz? || c.Blraaz? || c.Blrabz? || c.Braa? || c.Brab? || c.Blraa? || c.Blrab?
            || c.Retaa? || c.Retab? || c.Eretaa? || c.Eretab? then Feature.PAuth
    else if c.Retaasppc? || c.Retabsppc? || c.Retaasppcr? || c.Retabsppcr? then Feature.PauthLr
    else if c.Tcancel? || c.Tcommit? || c.Tstart? || c.Ttest? then Feature.Tme
    else if c.Tenter? then Feature.Tev
    else if c.Tsb? then Feature.Trf
    else if c.Gcsb? || c.Gcspushm? || c.Gcspopm? || c.Gcsss1? || c.Gcsss2? || c.Gcspushx? || c.Gcspopx?
            || c.Gcspopcx? then Feature.Gcs
    else if c.Shuh? || c.Stshh? || c.Stcph? then Feature.Pcdphint
    else if c.Chkfeat? then Feature.Chk
    else if c.Dgh? then Feature.Dgh
    else if c.Clrbhb? then Feature.Clrbhb
    else if c.Wfet? || c.Wfit? then Feature.Wfxt
    else if c.Smstart? || c.Smstop? then Feature.Sme
    else if c.Mrrs? || c.Msrr? || c.Sysp? then Feature.D128
    else if c.TchangefReg? || c.TchangebReg? || c.TchangefImm? || c.TchangebImm? then Feature.Tchange
    else Feature.Base
  }
}
