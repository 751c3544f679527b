/** internal/model: the ingest payload and the statistics it carries. */
module Model {
  /** The five smoothed measurements of a snapshot. */
  datatype Metrics = Metrics(loss: real, jitter: real, rtt: real, bitrateIn: real, bitrateOut: real)

  /** The measurements a row only copies. */
  datatype Media = Media(fps: real, frameWidth: int, frameHeight: int, audioLevel: real, concealment: real)

  datatype Snapshot = Snapshot(ts: int, metrics: Metrics, media: Media)

  datatype Payload = Payload(
    appID: string,
    userID: string,
    source: string,
    conferenceID: string,
    sessionID: string,
    connectionID: string,
    events: seq<Snapshot>)
}
