/**
 * ParserData: splits every data frame a mote connector receives and, when
 * the frame carries a uinject latency probe, updates the per-node statistics
 * and produces the network rollup it publishes.
 */
module MoteConnector {
  import opened Wrappers
  import opened AsnCodec
  import opened Frame
  import opened NodeStatsTracker
  import opened NetworkRollup

  /** The exceptions parseInput lets escape. */
  datatype ParseError =
    | TooShort         // _checkLength: fewer than HEADER_LENGTH bytes
    | AsnUnpackError   // struct.unpack('<BHH', ...) given fewer than five bytes

  /** The event parseInput returns: ('data', (source, residual)). */
  datatype Event = Event(eventType: string, source: seq<byte>, residual: seq<byte>)

  /** The JSON object published on every accepted probe. */
  datatype Payload = Payload(token: int, avgCellsUsage: real, avgLatency: real, avgPdr: real, l3Source: string)

  const Token: int := 123

  function PayloadOf(r: Rollup, l3Source: string): (p: Payload)
    ensures p.token == Token && p.l3Source == l3Source
    ensures p.avgCellsUsage == r.avgCellsUsage && p.avgLatency == r.avgLatency && p.avgPdr == r.avgPdr
  {
    Payload(Token, r.avgCellsUsage, r.avgLatency, r.avgPdr, l3Source)
  }

  /** Storing a key twice keeps the second value only. */
  lemma UpdateTwice<K, V>(m: map<K, V>, k: K, a: V, b: V)
    ensures m[k := a][k := b] == m[k := b]
  {
  }

  class ParserData {
    /** self._asn: the header ASN as '<BHH' decoded it; written, never read. */
    var asn: Option<HeaderAsn>
    /** self.avg_pdr_latency_cellUsage. */
    var stats: map<string, NodeStats>

    ghost predicate Valid()
      reads this
    {
      TableValid(stats)
    }

    constructor ()
      ensures Valid() && stats == map[] && asn == None
    {
      asn := None;
      stats := map[];
    }

    /** Appends a probe's samples to node l3Source and recomputes its averages. */
    method Record(l3Source: string, counter: int, latency: real, cells: byte)
      requires Valid()
      modifies this`stats
      ensures Valid()
      ensures stats == Recorded(old(stats), l3Source, counter, latency, cells)
    {
      ghost var before := stats;
      ghost var appended := Appended(Lookup(before, l3Source), counter, latency, cells);
      if l3Source in stats {
        var entry := stats[l3Source];
        stats := stats[l3Source := entry.(counter := entry.counter + [counter],
                                          latency := entry.latency + [latency],
                                          numCellsUsed := entry.numCellsUsed + [cells])];
      } else {
        stats := stats[l3Source := NodeStats([counter], [latency], [cells], 0.0, 0.0, 0.0)];
      }
      assert stats == before[l3Source := appended];
      var moteData := stats[l3Source];
      moteData := moteData.(avgCellsUsage := CellsUsage(moteData.numCellsUsed));
      moteData := moteData.(avgLatency := MeanReal(moteData.latency));
      var sorted := Sort(moteData.counter);
      assert |sorted| == |multiset(sorted)| == |moteData.counter|;
      moteData := moteData.(counter := sorted);
      moteData := moteData.(avgPdr := Pdr(moteData.counter));
      assert moteData == Recomputed(appended);
      ghost var updated := Updated(Lookup(before, l3Source), counter, latency, cells);
      assert updated == moteData;
      stats := stats[l3Source := moteData];
      UpdateTwice(before, l3Source, appended, moteData);
    }

    /**
     * parseInput: the event for every frame long enough to decode; for a
     * probe frame also the statistics update and the published payload.
     */
    method ParseInput(input: seq<byte>) returns (res: Result<Event, ParseError>, published: Option<Payload>)
      requires Valid()
      modifies this
      ensures Valid()
      ensures |input| < HeaderLength ==> res == Err(TooShort)
      ensures HeaderLength <= |input| < AsnEnd ==> res == Err(AsnUnpackError)
      ensures |input| < AsnEnd ==> published == None && stats == old(stats) && asn == old(asn)
      ensures |input| >= AsnEnd ==>
                && res == Ok(Event("data", Split(input).source, Split(input).residual))
                && asn == Some(UnpackBHH(input[2..7]))
      ensures |input| >= AsnEnd && !IsProbe(Split(input).residual) ==>
                published == None && stats == old(stats)
      ensures |input| >= AsnEnd && IsProbe(Split(input).residual) ==>
                var p := ProbeFields(Split(input).residual);
                && stats == Recorded(old(stats), p.l3Source, p.counter,
                                     Latency(AsnDiff(p.asn, input[2..7])), p.numCellsUsed)
                && published == Some(PayloadOf(RollupOf(stats), p.l3Source))
      ensures published.Some? ==> 0.0 < published.value.avgPdr <= 1.0
    {
      published := None;
      if |input| < HeaderLength {
        res := Err(TooShort);
        return;
      }
      var frame := Split(input);
      var asnBytes := frame.asn;
      if |asnBytes| != 5 {
        res := Err(AsnUnpackError);
        return;
      }
      asn := Some(UnpackBHH(asnBytes));
      var residual := frame.residual;
      if IsProbe(residual) {
        var probe := ProbeFields(residual);
        var diff := AsnDiff(probe.asn, asnBytes);
        var latency := Latency(diff);
        Record(probe.l3Source, probe.counter, latency, probe.numCellsUsed);
        var rollup := ComputeRollup(stats);
        ValidScalarBounds(stats);
        RollupPdrInRange(stats);
        published := Some(PayloadOf(rollup, probe.l3Source));
      }
      res := Ok(Event("data", frame.source, residual));
    }
  }
}
