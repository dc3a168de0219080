/** Guest instructions as the decoder reports them (src/Patch/InstMetadata.h). */
module Guest {
  import opened Ranges

  datatype Mode = Default | Thumb

  /** What the cache is indexed by: an instruction address and the CPU mode. */
  datatype Key = Key(address: nat, mode: Mode)

  /** `features` stands for every fact the disassembler derives from the bytes (mnemonic,
      opcode, registers, memory accesses, options). */
  datatype Insn = Insn(key: Key, size: nat, modifiesPC: bool, features: set<nat>) {

    /** `InstMetadata::endAddress()`, in machine words. */
    function End(): nat { (key.address + size) % WORD }

    /** The bytes of the instruction are a non-empty range of machine words. */
    predicate NoWrap() { key.address < WORD && key.address < End() }
  }
}
