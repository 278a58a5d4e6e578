/** Identifiers and label sets shared by the backlog and the latency metrics. */
module Identifiers {
  /** One direction of one relay path; equality is structural on the three fields. */
  datatype PathIdentifier = PathIdentifier(chainId: string, channelId: string, portId: string)

  /** The label set `chain`, `counterparty`, `channel`, `port` under which the per-path
      gauges and the latency histograms are observed. The counterparty chain is a label
      but not part of the path. */
  datatype PathLabels = PathLabels(chain: string, counterparty: string, channel: string, port: string)
}
