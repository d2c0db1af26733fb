/**
 * The machine function the passes edit in place: its basic blocks, the
 * counter that gives new instructions their ids, the frame information's
 * callee-saved register list, and the attributes the shadow-stack pass reads.
 */
module MachineFunctions {
  import opened MachineIR

  /** The mutable part of a machine function, as a value. */
  datatype MFState = MFState(blocks: seq<Block>, nextId: nat, csi: seq<CalleeSaved>)

  class MachineFunction {
    var blocks: seq<Block>
    var nextId: nat
    var csi: seq<CalleeSaved>
    /** The section of the IR function (getSection()). */
    const section: string
    /** MachineFrameInfo::hasVarSizedObjects(). */
    const hasVarSizedObjects: bool
    /** MachineFrameInfo::isCalleeSavedInfoValid(). */
    const csiValid: bool

    function State(): MFState
      reads this
    {
      MFState(blocks, nextId, csi)
    }

    constructor (blocks: seq<Block>, nextId: nat, csi: seq<CalleeSaved>,
                 section: string, hasVarSizedObjects: bool, csiValid: bool)
      ensures State() == MFState(blocks, nextId, csi)
      ensures this.section == section && this.hasVarSizedObjects == hasVarSizedObjects
      ensures this.csiValid == csiValid
    {
      this.blocks := blocks;
      this.nextId := nextId;
      this.csi := csi;
      this.section := section;
      this.hasVarSizedObjects := hasVarSizedObjects;
      this.csiValid := csiValid;
    }
  }

  /** Position of the instruction with a given id in one block. */
  function IndexOf(s: seq<Instr>, id: nat): (r: Option<nat>)
    ensures r.Some? ==> r.value < |s| && s[r.value].id == id
    ensures r.None? ==> forall i :: 0 <= i < |s| ==> s[i].id != id
  {
    if s == [] then None
    else if s[0].id == id then Some(0)
    else match IndexOf(s[1..], id)
      case None => None
      case Some(i) => Some(i + 1)
  }
}
