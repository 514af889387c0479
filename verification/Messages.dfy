// Stratum V2 Mining Protocol messages, as the client decodes them.

module Messages {
  import opened Numerals
  import opened CompactTarget

  type U16 = x: int | 0 <= x < 0x1_0000
  type U64 = x: int | 0 <= x < 0x1_0000_0000_0000_0000
  type Bytes = seq<Byte>

  /** A block template. Without ntime it is a future job, waiting for the tip that names it. */
  datatype NewMiningJob = NewMiningJob(
    channelId: U32, jobId: U32, hasNtimeStart: bool, ntimeStart: U32, version: U32, merkleRoot: Hash)

  /** The new chain tip, and the one job that extends it. */
  datatype SetNewPrevHash = SetNewPrevHash(
    channelId: U32, jobId: U32, prevHash: Hash, ntimeStart: U32, nBits: U32)

  datatype Message =
    | SetupConnection(protocol: Byte, minVersion: U16, maxVersion: U16, flags: U32,
                      endpoint: Bytes, vendor: Bytes, hardware: Bytes, firmware: Bytes, deviceId: Bytes)
    | SetupConnectionSuccess(usedVersion: U16, flags: U32)
    | SetupConnectionError(flags: U32, error: Bytes)
    | OpenMiningChannel(reqId: U32, user: Bytes, hashrateBits: U32, target: Hash)
    | OpenMiningChannelSuccess(reqId: U32, channelId: U32, target: Hash, extranonce: Bytes, groupId: U32)
    | OpenMiningChannelError(reqId: U32, error: Bytes)
    | JobMessage(job: NewMiningJob)
    | TipMessage(tip: SetNewPrevHash)
    | SetTarget(channelId: U32, target: Hash)
    | CloseChannel(channelId: U32, reason: Bytes)
    | SubmitSharesStandard(channelId: U32, sequence: U32, jobId: U32, nonce: U32, ntime: U32, version: U32)
    | SubmitSharesSuccess(channelId: U32, lastSequence: U32, accepted: U32, summed: U64)
    | SubmitSharesError(channelId: U32, sequence: U32, error: Bytes)
    | Unknown(msgType: Byte, payload: Bytes)
}
