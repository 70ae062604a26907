/**
  Classifying synthetic exchange frames (classify_kalshi_synthetic_frame, inci_tennis_adapters/kalshi_candidate.py):
  the caps on a payload's bytes and on the canonical JSON of the result around parsing and the tree's verdict.
*/
module KalshiClassifier {
  import opened Common
  import opened Digits
  import opened BoundedJson
  import opened KalshiFrames
  import opened FrameContents
  import opened JsonPrinter
  import JsonParser

  const MAX_RAW_BYTES: nat := 1_048_576
  const MAX_CANONICAL_BYTES: nat := 131_064

  // ---------- The canonical JSON of a result ----------

  function ReasonText(reason: FrameReason): string {
    match reason
    case IdentityInvalid => "IDENTITY_INVALID"
    case Capacity => "CAPACITY_EXCEEDED"
    case SchemaUnknown => "SCHEMA_UNKNOWN"
    case BookInvalid => "BOOK_INVALID"
    case BadPayload => "PAYLOAD_INVALID"
  }

  /** A SHA-256 digest as text: 64 hexadecimal digits. */
  predicate DigestText(s: string) { |s| == 64 && forall i :: 0 <= i < |s| ==> HexDigit(s[i]).Some? }

  /** Stands for any digest where only its length counts. */
  const SOME_DIGEST := Fixed(0, 64)

  function FrameProjection(f: Frame): Json
    requires ValidFrame(f)
  {
    JObject([Member("schema_version", JInt(1))] + FrameMembers(f))
  }

  /** A rejection in the scope of a ticker names a well-formed one. */
  predicate Presentable(verdict: Verdict) {
    verdict.Rejected? && verdict.ticker.Some? ==> TickerText(verdict.ticker.value)
  }

  /** The result's members by key. Canonical JSON sorts the frame's members too, which does not change its length. */
  function ResultMembers(verdict: Verdict, raw: string, digest: string): seq<Member>
    requires verdict.Accepted? ==> ValidFrame(verdict.frame)
  {
    var (status, kind, scope, reason, ticker, sequence, frame) := match verdict
      case Accepted(f) => ("ACCEPTED", JString(KindText(f.body)), JNull, JNull, JString(f.ticker), JString(f.sequence),
                           FrameProjection(f))
      case Rejected(ticker, reason) =>
        ("REJECTED", JNull, JString(if ticker.Some? then "TICKER" else "CONNECTION"), JString(ReasonText(reason)),
         if ticker.Some? then JString(ticker.value) else JNull, JNull, JNull);
    [Member("frame", frame), Member("kind", kind), Member("opaque_sequence", sequence),
     Member("raw_sha256", JString(raw)), Member("reason", reason), Member("result_sha256", JString(digest)),
     Member("schema_version", JInt(1)), Member("scope", scope), Member("status", JString(status)),
     Member("ticker", ticker)]
  }

  /** `canonical_json_bytes` of the whole result. */
  function CanonicalText(verdict: Verdict, raw: string, digest: string): string
    requires verdict.Accepted? ==> ValidFrame(verdict.frame)
  {
    Print(JObject(ResultMembers(verdict, raw, digest)), "", "")
  }

  /** Building the result raises a capacity error when its canonical JSON is too long. */
  function Capped(verdict: Verdict): Verdict
    requires verdict.Accepted? ==> ValidFrame(verdict.frame)
  {
    if Utf8Size(CanonicalText(verdict, SOME_DIGEST, SOME_DIGEST)) > MAX_CANONICAL_BYTES then Rejected(None, Capacity)
    else verdict
  }

  // ---------- The classification ----------

  function ReasonOf(reason: Reason): FrameReason {
    match reason
    case PayloadInvalid => BadPayload
    case CapacityExceeded => Capacity
  }

  lemma AcceptedIsValid(v: Json)
    ensures ClassifyTree(v).Accepted? ==> ValidFrame(ClassifyTree(v).frame)
  {
    hide ClassifyTree, ValidFrame, TreeSays;
    if ClassifyTree(v).Accepted? { TreeExact(v, ClassifyTree(v).frame); }
  }

  /** `classify_kalshi_synthetic_frame`, given whether the payload's digest is the expected one. */
  function Classify(payload: Decoded, digestMatches: bool): Verdict {
    if !digestMatches then Rejected(None, IdentityInvalid)
    else if ByteCount(payload) > MAX_RAW_BYTES then Rejected(None, Capacity)
    else
      var tree := ParsePayload(payload);
      if tree.Err? then Rejected(None, ReasonOf(tree.error))
      else
        AcceptedIsValid(tree.value);
        Capped(ClassifyTree(tree.value))
  }

  method ReadFrame(payload: Decoded, digestMatches: bool) returns (verdict: Verdict)
    ensures verdict == Classify(payload, digestMatches)
  {
    hide ClassifyTree, ParsePayload, ValidFrame, CanonicalText, Utf8Size;
    if !digestMatches { return Rejected(None, IdentityInvalid); }
    if ByteCount(payload) > MAX_RAW_BYTES { return Rejected(None, Capacity); }
    var tree := JsonParser.ReadPayload(payload);
    if tree.Err? { return Rejected(None, ReasonOf(tree.error)); }
    verdict := ReadTree(tree.value);
    AcceptedIsValid(tree.value);
    var canonical := CanonicalText(verdict, SOME_DIGEST, SOME_DIGEST);
    if Utf8Size(canonical) > MAX_CANONICAL_BYTES { return Rejected(None, Capacity); }
  }
}
