/** The packet of data that the library passes around, NMXP_DATA_PROCESS. The network,
    station, channel and location codes, the quality marks and the constant flag
    `x0n_significant` are not part of it. */
module Packets {
  datatype DataProcess = DataProcess(key: int, packetType: int, x0: int, xn: int, oldestSeqNo: int, seqNo: int,
                                     time: real, sampRate: int, samples: seq<int>)
}
