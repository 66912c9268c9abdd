/** The mode resolution table: `modeToInt` and `modeFromInt`, which map a
    (mode, sub-mode, oblivious-transfer) tuple to a one-byte wire code and
    back. */
module ModeTable {
  import opened Types

  /** The top-level transaction mode. `OtherMode` stands for every string
      that is neither the plain nor the table constant (Go's zero value ""
      among them). */
  datatype TopMode = PlainPod | TablePod | OtherMode

  /** The sub-mode. `OtherSubMode` stands for every unlisted string. */
  datatype SubMode = Complaint | AtomicSwap | AtomicSwapVc | VrfQuery | OtherSubMode

  datatype TxMode = TxMode(mode: TopMode, subMode: SubMode, ot: bool)

  // The ten `pod_net.Mode*` wire codes. Their numeric values live in the
  // network package, which is not part of this model: the values below are
  // placeholders, and every property proved here uses only that they are
  // pairwise distinct (which Go itself enforces, since `modeFromInt`
  // switches over them and duplicate constant cases do not compile).
  const ModePlainComplaintPoD: uint8 := 1
  const ModePlainOTComplaintPoD: uint8 := 2
  const ModePlainAtomicSwapPoD: uint8 := 3
  const ModePlainAtomicSwapVcPoD: uint8 := 4
  const ModeTableComplaintPoD: uint8 := 5
  const ModeTableOTComplaintPoD: uint8 := 6
  const ModeTableAtomicSwapPoD: uint8 := 7
  const ModeTableAtomicSwapVcPoD: uint8 := 8
  const ModeTableVRFQuery: uint8 := 9
  const ModeTableOTVRFQuery: uint8 := 10

  const WireCodes: set<uint8> := {
    ModePlainComplaintPoD, ModePlainOTComplaintPoD, ModePlainAtomicSwapPoD,
    ModePlainAtomicSwapVcPoD, ModeTableComplaintPoD, ModeTableOTComplaintPoD,
    ModeTableAtomicSwapPoD, ModeTableAtomicSwapVcPoD, ModeTableVRFQuery,
    ModeTableOTVRFQuery
  }

  /** The (mode, sub-mode) pairs the encoder lists: three sub-modes under
      plain, all four under table (VRF only there). */
  predicate Listed(mode: TopMode, subMode: SubMode) {
    match mode
    case PlainPod => subMode == Complaint || subMode == AtomicSwap || subMode == AtomicSwapVc
    case TablePod => subMode != OtherSubMode
    case OtherMode => false
  }

  /** Sub-modes whose wire code records the OT flag; the two atomic-swap
      sub-modes encode to one code whatever the flag. */
  predicate OtSensitive(subMode: SubMode) {
    subMode == Complaint || subMode == VrfQuery
  }

  /** `modeToInt`: the wire code of a tuple, or "invalid mode". */
  function ModeToInt(mode: TopMode, subMode: SubMode, ot: bool): (r: Result<uint8>)
    ensures r.Err? <==> !Listed(mode, subMode)
    ensures r.Err? ==> r.failure == InvalidMode
    ensures r.Ok? ==> r.value in WireCodes
  {
    match mode
    case PlainPod =>
      (match subMode
       case Complaint => Ok(if !ot then ModePlainComplaintPoD else ModePlainOTComplaintPoD)
       case AtomicSwap => Ok(ModePlainAtomicSwapPoD)
       case AtomicSwapVc => Ok(ModePlainAtomicSwapVcPoD)
       case _ => Err(InvalidMode))
    case TablePod =>
      (match subMode
       case Complaint => Ok(if !ot then ModeTableComplaintPoD else ModeTableOTComplaintPoD)
       case AtomicSwap => Ok(ModeTableAtomicSwapPoD)
       case AtomicSwapVc => Ok(ModeTableAtomicSwapVcPoD)
       case VrfQuery => Ok(if !ot then ModeTableVRFQuery else ModeTableOTVRFQuery)
       case OtherSubMode => Err(InvalidMode))
    case OtherMode => Err(InvalidMode)
  }

  /** `modeFromInt`: the tuple a wire code stands for, or "invalid mode". */
  function ModeFromInt(netMode: uint8): (r: Result<TxMode>)
    ensures r.Ok? <==> netMode in WireCodes
    ensures r.Err? ==> r.failure == InvalidNetMode(netMode)
    ensures r.Ok? ==> Listed(r.value.mode, r.value.subMode)
    ensures r.Ok? && r.value.ot ==> OtSensitive(r.value.subMode)
  {
    if netMode == ModePlainComplaintPoD then Ok(TxMode(PlainPod, Complaint, false))
    else if netMode == ModePlainOTComplaintPoD then Ok(TxMode(PlainPod, Complaint, true))
    else if netMode == ModePlainAtomicSwapPoD then Ok(TxMode(PlainPod, AtomicSwap, false))
    else if netMode == ModePlainAtomicSwapVcPoD then Ok(TxMode(PlainPod, AtomicSwapVc, false))
    else if netMode == ModeTableComplaintPoD then Ok(TxMode(TablePod, Complaint, false))
    else if netMode == ModeTableOTComplaintPoD then Ok(TxMode(TablePod, Complaint, true))
    else if netMode == ModeTableAtomicSwapPoD then Ok(TxMode(TablePod, AtomicSwap, false))
    else if netMode == ModeTableAtomicSwapVcPoD then Ok(TxMode(TablePod, AtomicSwapVc, false))
    else if netMode == ModeTableVRFQuery then Ok(TxMode(TablePod, VrfQuery, false))
    else if netMode == ModeTableOTVRFQuery then Ok(TxMode(TablePod, VrfQuery, true))
    else Err(InvalidNetMode(netMode))
  }

  /** The tuple a listed tuple turns into after one trip over the wire: the
      OT flag survives only where the code records it. */
  function Normalised(t: TxMode): TxMode {
    t.(ot := t.ot && OtSensitive(t.subMode))
  }

  /** The ten wire codes are pairwise distinct. */
  lemma WireCodesDistinct()
    ensures |WireCodes| == 10
  {
    var s := {ModePlainComplaintPoD, ModePlainOTComplaintPoD, ModePlainAtomicSwapPoD,
              ModePlainAtomicSwapVcPoD, ModeTableComplaintPoD};
    var t := {ModeTableOTComplaintPoD, ModeTableAtomicSwapPoD, ModeTableAtomicSwapVcPoD,
              ModeTableVRFQuery, ModeTableOTVRFQuery};
    assert |s| == 5;
    assert |t| == 5;
    assert s !! t;
    assert WireCodes == s + t;
  }

  /** Decoding an encoded tuple gives it back, except that the atomic-swap
      sub-modes lose an OT flag of true. */
  lemma EncodeDecode(t: TxMode)
    requires ModeToInt(t.mode, t.subMode, t.ot).Ok?
    ensures ModeFromInt(ModeToInt(t.mode, t.subMode, t.ot).value) == Ok(Normalised(t))
  {
    match t.mode
    case PlainPod =>
    case TablePod =>
  }

  /** The exact round trip holds precisely for the eight tuples that are
      listed and either have OT false or an OT-sensitive sub-mode. */
  lemma EncodeDecodeExact(t: TxMode)
    ensures (ModeToInt(t.mode, t.subMode, t.ot).Ok? &&
             ModeFromInt(ModeToInt(t.mode, t.subMode, t.ot).value) == Ok(t))
        <==> (Listed(t.mode, t.subMode) && (!t.ot || OtSensitive(t.subMode)))
  {
    if Listed(t.mode, t.subMode) {
      EncodeDecode(t);
    }
  }

  /** Every listed code decodes to a tuple that encodes back to that code. */
  lemma DecodeEncode(c: uint8)
    requires c in WireCodes
    ensures ModeFromInt(c).Ok?
    ensures ModeToInt(ModeFromInt(c).value.mode, ModeFromInt(c).value.subMode, ModeFromInt(c).value.ot) == Ok(c)
  {
  }

  /** Two tuples share a wire code exactly when they agree after
      normalisation: no two distinct wire-level tuples collide. */
  lemma EncodeInjective(t: TxMode, u: TxMode)
    requires ModeToInt(t.mode, t.subMode, t.ot).Ok? && ModeToInt(u.mode, u.subMode, u.ot).Ok?
    ensures ModeToInt(t.mode, t.subMode, t.ot) == ModeToInt(u.mode, u.subMode, u.ot)
        <==> Normalised(t) == Normalised(u)
  {
    EncodeDecode(t);
    EncodeDecode(u);
    if Normalised(t) == Normalised(u) {
      match t.subMode
      case Complaint =>
      case VrfQuery =>
      case AtomicSwap =>
      case AtomicSwapVc =>
      case OtherSubMode =>
    }
  }

  /** The atomic-swap branches ignore the OT flag. */
  lemma AtomicSwapIgnoresOt(mode: TopMode, subMode: SubMode)
    requires subMode == AtomicSwap || subMode == AtomicSwapVc
    ensures ModeToInt(mode, subMode, true) == ModeToInt(mode, subMode, false)
  {
  }
}
