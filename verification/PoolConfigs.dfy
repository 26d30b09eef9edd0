/** Pool sizes, shared by both pools. */
module PoolConfigs {
  import Buffers

  const WORD: nat := 0x1_0000_0000_0000_0000

  datatype Config = Config(bufferSize: nat, maxPool: nat, minPool: nat)

  /** `Buffer::new` panics on an oversized buffer; sizes are machine words. */
  predicate ConfigOk(c: Config) {
    c.bufferSize <= Buffers.BUF_MAX_SIZE && c.maxPool < WORD && c.minPool < WORD
  }
}
