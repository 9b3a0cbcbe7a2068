# ParserData: data-frame decoding and uinject latency statistics

This project models `ParserData`, the OpenVisualizer parser for data frames that arrive from a mote. Each frame is split at fixed offsets:

- a 2-byte header;
- the 5-byte absolute slot number (ASN);
- an 8-byte destination;
- an 8-byte source (the previous hop);
- the residual payload.

A frame shorter than 2 bytes fails the length check, and one shorter than 7 bytes makes `struct.unpack` of the ASN raise. Every frame of at least 7 bytes yields `('data', (source, residual))`. A residual can end with the latency probe of the uinject application: more than 37 bytes, the last seven spelling `uinject`. In that case the parser also does the following:

1. It reads the probe's fields from fixed offsets counted from the end.
2. It computes the latency as the ASN difference times the slot duration.
3. It appends the samples to the sending node's entry in the statistics table.
4. It recomputes that node's three averages: cell usage, latency and packet delivery ratio (PDR).
5. It publishes the unweighted mean of those averages over every known node.

Modules, one per component, in the order they build on each other:

- `Wrappers` (`wrappers.dfy`): `Option` and `Result`.
- `AsnCodec` (`asn_codec.dfy`): holds the two `struct.unpack` layouts of the five ASN bytes.
  - `'<HHB'` is read by `_asndiference`.
  - `'<BHH'` is stored in `self._asn` and never read.
  - It also holds the ASN difference with its rollover sentinel, specified against an independent little-endian reading of the lower four bytes.
- `Frame` (`frame.dfy`): Python's clamped slicing, the five-way split of a frame, the probe gate, the probe fields, and the unpadded hexadecimal node identifier. The probe fields are paired with the trailer layout they decode. The identifier is paired with a hexadecimal reader.
- `NodeStatsTracker` (`node_stats.dfy`): one entry of `avg_pdr_latency_cellUsage` and the three averages:
  - the floor-division cell usage of Python 2;
  - the mean latency;
  - the PDR over the sorted counter list.

  It also defines the pure update of the table that one probe causes.
- `NetworkRollup` (`rollup.dfy`): the loop over all entries that sums the three averages and divides by the node count. It is proved against an order-independent sum over the table's keys.
- `MoteConnector` (`parser_data.dfy`): the class `ParserData`.
  - It has the fields `asn` (`self._asn`) and `stats` (`self.avg_pdr_latency_cellUsage`).
  - `Record` updates one node's entry in place.
  - `ParseInput` returns the event and, for a probe frame, the payload it would publish.

The model follows the code where a description of the system differs from it:

- `_asndiference` reads both of its arguments with `'<HHB'`, including the header ASN.
- The node identifier is `hex(r[-16])` followed by `hex(r[-17])`.
- The latency is in seconds (`MSPERSLOT = 0.02`), although the comment at line 119 says milliseconds.
- The cell usage can reach 255/64, not only 1, because `numCellsUsed` is a full byte.

Observations the proofs make precise:

- `_asndiference` also returns `0xFFFFFFFF` for one pair of lower-32-bit values, in any epoch: lower 32 bits 0 for `init` and `0xFFFFFFFF` for `end`. So the sentinel is not a pure rollover signal (`AsnCodec.AsnDiffSentinelExactly`, `AsnCodec.SentinelAmbiguous`).
- Two motes can share an identifier, because the hex digits are not padded (`Frame.NodeIdCollision`).

## Model

| member | source | states |
|---|---|---|
| `AsnCodec.LE16` | openvisualizer/moteConnector/ParserData.py:195-196 | A `'<H'` word lies in 0..65535, and its low and high bytes can be read back from it. |
| `AsnCodec.UnpackHHB` | openvisualizer/moteConnector/ParserData.py:195-196 | `'<HHB'`: the epoch is byte 4, and the two words together are the little-endian value of bytes 0..3. |
| `AsnCodec.UnpackBHH` | openvisualizer/moteConnector/ParserData.py:87 | `'<BHH'` in the order of the `self._asn` labels: `asn_4` is byte 0, and `asn_2_3` + 65536·`asn_0_1` is the little-endian value of bytes 1..4, so the word labelled `asn_2_3` is the low half. |
| `AsnCodec.AsnDiff` | openvisualizer/moteConnector/ParserData.py:193-202 | Different epoch bytes give `0xFFFFFFFF`, whatever the other bytes hold. Equal epochs give LE32(end[0:4]) − LE32(init[0:4]). |
| `AsnCodec.AsnDiffSentinelExactly` | openvisualizer/moteConnector/ParserData.py:197-202 | The result is `0xFFFFFFFF` if and only if the epochs differ, or the lower 32 bits are 0 for `init` and `0xFFFFFFFF` for `end`. |
| `AsnCodec.SentinelAmbiguous` | openvisualizer/moteConnector/ParserData.py:197-202 | In every epoch, the pair with lower 32 bits 0 for `init` and `0xFFFFFFFF` for `end` has a genuine difference equal to the rollover sentinel. |
| `AsnCodec.AsnDiffSelf` | openvisualizer/moteConnector/ParserData.py:202 | An ASN compared with itself is 0 slots apart. |
| `AsnCodec.AsnDiffAntisymmetric` | openvisualizer/moteConnector/ParserData.py:202 | Within one epoch, swapping the arguments negates the result. |
| `AsnCodec.AsnDiffBounds` | openvisualizer/moteConnector/ParserData.py:202 | Within one epoch, the result lies in −(2^32−1)..2^32−1. |
| `Frame.Slice` | openvisualizer/moteConnector/ParserData.py:83-106 | Python's `s[i:j]`: `s[i..j]` when `j` is within the sequence, `s[i..]` when only `i` is, and empty when `i` is past the end. |
| `Frame.Split` | openvisualizer/moteConnector/ParserData.py:83-106 | Each of the five pieces at every frame length: header bytes 0..1, ASN 2..6, destination 7..14, source 15..22, residual 23..end. A piece that runs past the end is cut there, and one that starts past it is empty. |
| `Frame.SplitCoversFrame` | openvisualizer/moteConnector/ParserData.py:83-106 | The five pieces concatenate back to the frame, for every length, with Python's clamped slicing. |
| `Frame.AsText` | openvisualizer/moteConnector/ParserData.py:115 | `''.join(chr(i) …)`: one character per byte, each with the byte's value as its code. |
| `Frame.MarkerText` | openvisualizer/moteConnector/ParserData.py:115 | Seven bytes read as text equal `uinject` if and only if they are its ASCII codes. |
| `Frame.IsProbe` | openvisualizer/moteConnector/ParserData.py:114-115 | The probe gate holds if and only if the residual is longer than 37 bytes and its last seven bytes are the ASCII codes of `uinject`. |
| `Frame.HexNoPad` | openvisualizer/moteConnector/ParserData.py:121 | `{:x}` of a byte is one or two lower-case hex digits, two exactly when the byte is at least 16. |
| `Frame.HexNoPadRoundTrip` | openvisualizer/moteConnector/ParserData.py:121 | Reading the digits back as hexadecimal gives the byte. |
| `Frame.NodeId` | openvisualizer/moteConnector/ParserData.py:121 | The `l3_source` identifier is 2 to 4 characters long. |
| `Frame.NodeIdCollision` | openvisualizer/moteConnector/ParserData.py:121 | Bytes (0x1, 0x23) and (0x12, 0x3) both give `"123"`. |
| `Frame.NodeIdInjectiveWide` | openvisualizer/moteConnector/ParserData.py:121 | When all four bytes are at least 16, equal identifiers mean equal bytes. |
| `Frame.ProbeFields` | openvisualizer/moteConnector/ParserData.py:116-121 | The counter lies in 0..65535, the probe ASN has 5 bytes, and the identifier has 2 to 4 characters. |
| `Frame.ProbeRoundTrip` | openvisualizer/moteConnector/ParserData.py:114-121 | Any payload of more than 20 bytes followed by a 17-byte trailer passes the probe gate. Decoding returns the trailer's cell count, ASN, counter and identifier. |
| `NodeStatsTracker.Insert` | openvisualizer/moteConnector/ParserData.py:145 | Inserting into a sorted list keeps it sorted and adds exactly the new element. |
| `NodeStatsTracker.Sort` | openvisualizer/moteConnector/ParserData.py:145 | `list.sort()` yields an ascending permutation of its input. |
| `NodeStatsTracker.DistinctWithinSpan` | openvisualizer/moteConnector/ParserData.py:145-146 | The number of distinct counters in a sorted list is between 1 and 1 + last − first. |
| `NodeStatsTracker.Pdr` | openvisualizer/moteConnector/ParserData.py:146 | `avg_pdr` lies in (0, 1]. |
| `NodeStatsTracker.PdrOneExactly` | openvisualizer/moteConnector/ParserData.py:146 | The ratio is 1 if and only if every counter from the first to the last arrived. |
| `NodeStatsTracker.PdrExample` | openvisualizer/moteConnector/ParserData.py:146 | Counters 1, 2, 2, 5 give 3/5. |
| `NodeStatsTracker.CellsUsage` | openvisualizer/moteConnector/ParserData.py:143 | `avg_cellsUsage` lies in [0, 255/64]. |
| `NodeStatsTracker.CellsUsageExample` | openvisualizer/moteConnector/ParserData.py:143 | Samples 10, 20, 30 give 20/64. |
| `NodeStatsTracker.CellsUsageFloors` | openvisualizer/moteConnector/ParserData.py:143 | Python 2 integer division drops the fraction: samples 1 and 2 give 1/64. |
| `NodeStatsTracker.MeanReal` | openvisualizer/moteConnector/ParserData.py:144 | `avg_latency` times the sample count is the sum of the samples; `NodeStatsTracker.MeanRealWithin` bounds it. |
| `NodeStatsTracker.MeanRealWithin` | openvisualizer/moteConnector/ParserData.py:144 | `avg_latency` lies between any lower and upper bound of the latency samples. |
| `NodeStatsTracker.Latency` | openvisualizer/moteConnector/ParserData.py:118-119 | The latency is zero exactly when the slot difference is zero, and positive exactly when the difference is positive. |
| `NodeStatsTracker.Updated` | openvisualizer/moteConnector/ParserData.py:127-146 | After one probe, the counter list is the old counters plus the new one, as a sorted multiset. The latency and cell lists each gain exactly the new sample. An unseen node gets singleton lists. All three averages are current. |
| `NodeStatsTracker.Appended` | openvisualizer/moteConnector/ParserData.py:127-139 | A known node's three lists each gain the new sample at the end; an unseen node gets singleton lists. The three lists stay the same non-zero length. |
| `NodeStatsTracker.Recomputed` | openvisualizer/moteConnector/ParserData.py:141-146 | The counters become a sorted permutation of themselves, the samples are untouched, and an entry whose lists are in step is consistent afterwards: all three averages current. |
| `NodeStatsTracker.Recorded` | openvisualizer/moteConnector/ParserData.py:127-146 | The table gains at most the probe's node. Every other entry is unchanged. Every entry stays consistent. |
| `NodeStatsTracker.RecordedGrowsByOne` | openvisualizer/moteConnector/ParserData.py:127-139 | The node's counter, latency and cell lists each grow by exactly one element. An unseen node starts from one. |
| `NodeStatsTracker.RecordedCountersSorted` | openvisualizer/moteConnector/ParserData.py:128-145 | A known node's stored counters equal `sorted(old + [counter])`. |
| `NetworkRollup.TotalRemove` | openvisualizer/moteConnector/ParserData.py:152-155 | The sum over all nodes does not depend on the order the nodes are visited in. |
| `NetworkRollup.TotalWithin` | openvisualizer/moteConnector/ParserData.py:152-155 | Per-node bounds on a scalar bound its sum over the nodes. |
| `NetworkRollup.TotalPositive` | openvisualizer/moteConnector/ParserData.py:152-155 | Positive per-node scalars give a positive sum over a non-empty set of nodes. |
| `NetworkRollup.RollupPdrInRange` | openvisualizer/moteConnector/ParserData.py:148-160 | If each node's ratio lies in (0, 1], the network `avg_pdr` lies in (0, 1]. |
| `NetworkRollup.RollupCellsUsageInRange` | openvisualizer/moteConnector/ParserData.py:148-160 | If each node's cell usage lies in [0, 255/64], the network cell usage lies there too. |
| `NetworkRollup.RollupSingle` | openvisualizer/moteConnector/ParserData.py:152-160 | A network of one node reports that node's own averages. |
| `NetworkRollup.RollupTwoNodes` | openvisualizer/moteConnector/ParserData.py:152-160 | Two nodes with ratios 0.5 and 1.0 give a network ratio of 0.75. |
| `NetworkRollup.ComputeRollup` | openvisualizer/moteConnector/ParserData.py:148-160 | The loop's three sums divided by the node count equal the order-independent unweighted means over every node. |
| `MoteConnector.PayloadOf` | openvisualizer/moteConnector/ParserData.py:123-165 | The published object carries `token` 123, the three network averages under their own keys, and the probe's `l3_source`. |
| `MoteConnector.ParserData.constructor` | openvisualizer/moteConnector/ParserData.py:42-47 | A new parser has an empty statistics table and no decoded ASN. |
| `MoteConnector.ParserData.Record` | openvisualizer/moteConnector/ParserData.py:127-146 | The in-place update leaves the table equal to `Recorded` of the old table and keeps every entry consistent. |
| `MoteConnector.ParserData.ParseInput` | openvisualizer/moteConnector/ParserData.py:75-189 | See the list below. |

What `MoteConnector.ParserData.ParseInput` states:

- Below 2 bytes it returns `TooShort`.
- Below 7 bytes it returns `AsnUnpackError`.
- With either error, nothing changes and nothing is published.
- Otherwise it returns `('data', source, residual)` from `Split`, and `asn` holds the `'<BHH'` decoding.
- For a frame that is not a probe, the table is unchanged and nothing is published.
- For a probe frame, the table becomes `Recorded(...)` with the probe's fields and `AsnDiff(aux, asnbytes)·0.02`, and the published payload is the rollup of the new table. Its `avg_pdr` lies in (0, 1].

## Left out

- The MQTT client, its connection, its `loop_forever` thread and `_on_mqtt_connect` (lines 49-62, 66-70) are network I/O and concurrency. `publish` with `json.dumps` (lines 171-175) becomes the `published` out-parameter of `ParseInput`.
- `print payload` and the `log` calls (lines 77-78, 95-101, 108-109, 168) are output only.
- `Parser._checkLength` belongs to the base class `Parser`, which is not part of this model. It is modelled as failing with `TooShort` below `HEADER_LENGTH` (2) bytes.
- Floating point is not modelled. The latency (`diff * 0.02`) and every average are exact reals. Float rounding, and the order in which Python's dict iteration adds the per-node averages, are therefore not captured.
- The input is a sequence of bytes 0..255. The `ValueError` that `chr` would raise on a larger list element is not modelled.
- The in-place `sort()` of the list shared between `mote_data` and the dict entry is modelled as writing the sorted list back into the entry. Aliasing of the two names is not modelled.
- The unused constants `IPHC_SAM`/`IPHC_DAM`, the `pydispatch` import, and the commented-out code at lines 176-179 do nothing.
- `NodeStatsTracker.Latency`: states only sign and zero, not the float value of `diff * 0.02`.
