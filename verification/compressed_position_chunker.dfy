/**
  The compressed-position chunker of the APRS codec: it splits the front of a
  packet body into the fixed 13-character compressed position of chapter 9 of
  the APRS 1.01 protocol specification and hands each field to its decoder.

  The decoders themselves (the base-91 coordinate transformer, the extension
  codec and the symbol table) are not part of this model: they are the fields of
  a `Decoders` value, and their results are the opaque types below.
*/
module CodecPosition {
  import opened Wrappers
  import opened CodecChunk

  /** Decoded latitude, as built by the compressed coordinate transformer. */
  type Latitude(==)
  /** Decoded longitude, as built by the compressed coordinate transformer. */
  type Longitude(==)
  /** Decoded course/speed, range or altitude data (possibly absent). */
  type Extension(==)
  /** A station symbol, as looked up by `symbolOf`. */
  type Symbol(==)
  /** The failure a decoder raises on malformed characters. */
  type DecodeError(==)

  datatype GeoCoordinates = GeoCoordinates(latitude: Latitude, longitude: Longitude)

  /** `PositionReport.Compressed` */
  datatype Compressed = Compressed(coordinates: GeoCoordinates, symbol: Symbol, extension: Extension)

  /** The collaborators `popChunk` calls. A decoder that throws is one that
      returns `Err`; `symbolOf` never fails. */
  datatype Decoders = Decoders(
    decodeLatitude: string -> Result<Latitude, DecodeError>,
    decodeLongitude: string -> Result<Longitude, DecodeError>,
    decodeExtra: string -> Result<Extension, DecodeError>,
    symbolOf: (char, char) -> Symbol)

  // ---------------------------------------------------------------------------
  // The compressed position layout, as a table of fields and widths

  datatype Field = TableId | Lat | Lon | CodeId | Ext

  /** The fields of a compressed position, in transmission order. */
  const Layout: seq<Field> := [TableId, Lat, Lon, CodeId, Ext]

  function Width(f: Field): nat
  {
    match f
    case TableId => 1
    case Lat => 4
    case Lon => 4
    case CodeId => 1
    case Ext => 3
  }

  /** Total width of a list of fields laid end to end. */
  function TotalWidth(fields: seq<Field>): nat
  {
    if fields == [] then 0 else Width(fields[0]) + TotalWidth(fields[1..])
  }

  /** Where field `f` starts: the total width of the fields before it. */
  function Offset(f: Field): (o: nat)
    ensures o + Width(f) <= ChunkWidth
  {
    PrefixWidths();
    match f
    case TableId => TotalWidth([])
    case Lat => TotalWidth(Layout[..1])
    case Lon => TotalWidth(Layout[..2])
    case CodeId => TotalWidth(Layout[..3])
    case Ext => TotalWidth(Layout[..4])
  }

  lemma PrefixWidths()
    ensures TotalWidth(Layout[..1]) == 1 && TotalWidth(Layout[..2]) == 5
    ensures TotalWidth(Layout[..3]) == 9 && TotalWidth(Layout[..4]) == 10
    ensures TotalWidth(Layout) == 13
  {
    assert [Ext][1..] == [];
    assert [CodeId, Ext][1..] == [Ext];
    assert [Lon, CodeId, Ext][1..] == [CodeId, Ext];
    assert [Lat, Lon, CodeId, Ext][1..] == [Lon, CodeId, Ext];
    assert Layout[1..] == [Lat, Lon, CodeId, Ext];
    assert [Lat, Lon, CodeId][1..] == [Lon, CodeId];
    assert [Lon, CodeId][1..] == [CodeId];
    assert [CodeId][1..] == [];
    assert [Lat, Lon][1..] == [Lon];
    assert [Lon][1..] == [];
    assert [Lat][1..] == [];
    assert Layout[..1] == [TableId] && Layout[..2] == [TableId, Lat];
    assert Layout[..3] == [TableId, Lat, Lon] && Layout[..4] == [TableId, Lat, Lon, CodeId];
    assert [TableId, Lat, Lon, CodeId][1..] == [Lat, Lon, CodeId];
    assert [TableId, Lat, Lon][1..] == [Lat, Lon];
    assert [TableId, Lat][1..] == [Lat];
    assert [TableId][1..] == [];
  }

  /** Width of a whole compressed position. */
  const ChunkWidth: nat := TotalWidth(Layout)

  /** Where each field starts and ends: the table id is character 0, the
      latitude characters 1 to 4, the longitude 5 to 8, the symbol code 9 and
      the extension 10 to 12, 13 characters in all. */
  lemma LayoutOffsets()
    ensures Offset(TableId) == 0 && Offset(Lat) == 1 && Offset(Lon) == 5
    ensures Offset(CodeId) == 9 && Offset(Ext) == 10 && ChunkWidth == 13
  {
    PrefixWidths();
  }

  /** The characters of field `f` in `data`. */
  function FieldOf(data: string, f: Field): string
    requires |data| >= ChunkWidth
  {
    LayoutOffsets();
    data[Offset(f)..Offset(f) + Width(f)]
  }

  /** The fields of `data`, concatenated in layout order. */
  function Fields(data: string, fields: seq<Field>): string
    requires |data| >= ChunkWidth
  {
    if fields == [] then [] else FieldOf(data, fields[0]) + Fields(data, fields[1..])
  }

  /** The five fields sit end to end and cover exactly the first 13 characters:
      no field overlaps another and no character is skipped. */
  lemma {:induction false} LayoutPartitionsChunk(data: string)
    requires |data| >= ChunkWidth
    ensures ChunkWidth == 13
    ensures Offset(TableId) == 0
    ensures Offset(Lat) == Offset(TableId) + Width(TableId)
    ensures Offset(Lon) == Offset(Lat) + Width(Lat)
    ensures Offset(CodeId) == Offset(Lon) + Width(Lon)
    ensures Offset(Ext) == Offset(CodeId) + Width(CodeId)
    ensures Offset(Ext) + Width(Ext) == ChunkWidth
    ensures Fields(data, Layout) == data[..ChunkWidth]
  {
    LayoutOffsets();
    var tail := [Ext];
    assert Fields(data, tail) == data[10..13] by { assert tail[1..] == []; }
    tail := [CodeId] + tail;
    assert Fields(data, tail) == data[9..13] by { assert tail[1..] == [Ext]; }
    tail := [Lon] + tail;
    assert Fields(data, tail) == data[5..13] by { assert tail[1..] == [CodeId, Ext]; }
    tail := [Lat] + tail;
    assert Fields(data, tail) == data[1..13] by { assert tail[1..] == [Lon, CodeId, Ext]; }
    assert Layout == [TableId] + tail;
    assert Layout[1..] == tail;
  }

  // ---------------------------------------------------------------------------
  // popChunk

  /** `CompressedPositionChunker.popChunk`. The source reads `data[0]` up to
      `data[12]` and `substring(13)` without a length check; an input shorter
      than 13 characters throws, so the model requires 13 characters. A decoder
      failure propagates, in the order the source calls them: latitude,
      longitude, extension. */
  function PopChunk(dec: Decoders, data: string): (r: Result<Chunk<Compressed>, DecodeError>)
    requires |data| >= ChunkWidth
    ensures r.Ok? <==>
      dec.decodeLatitude(FieldOf(data, Lat)).Ok? &&
      dec.decodeLongitude(FieldOf(data, Lon)).Ok? &&
      dec.decodeExtra(FieldOf(data, Ext)).Ok?
    ensures r.Ok? ==>
      && r.value.result.coordinates.latitude == dec.decodeLatitude(FieldOf(data, Lat)).value
      && r.value.result.coordinates.longitude == dec.decodeLongitude(FieldOf(data, Lon)).value
      && r.value.result.extension == dec.decodeExtra(FieldOf(data, Ext)).value
      && r.value.result.symbol == dec.symbolOf(FieldOf(data, CodeId)[0], FieldOf(data, TableId)[0])
      && data[..ChunkWidth] + r.value.remainingData == data
      && |r.value.remainingData| == |data| - ChunkWidth
    ensures r.Err? ==> r.error == FirstError(dec, data)
  {
    LayoutOffsets();
    var tableIdentifier := data[0];
    var latitude := dec.decodeLatitude(data[1..5]);
    if latitude.Err? then Err(latitude.error) else
    var longitude := dec.decodeLongitude(data[5..9]);
    if longitude.Err? then Err(longitude.error) else
    var codeIdentifier := data[9];
    var extension := dec.decodeExtra(data[10..13]);
    if extension.Err? then Err(extension.error) else
    Ok(Chunk(
      Compressed(GeoCoordinates(latitude.value, longitude.value), dec.symbolOf(codeIdentifier, tableIdentifier), extension.value),
      data[13..]))
  }

  /** The error of the first failing decoder, taking the fields in layout order. */
  function FirstError(dec: Decoders, data: string): DecodeError
    requires |data| >= ChunkWidth
    requires !(dec.decodeLatitude(FieldOf(data, Lat)).Ok? &&
               dec.decodeLongitude(FieldOf(data, Lon)).Ok? &&
               dec.decodeExtra(FieldOf(data, Ext)).Ok?)
  {
    if dec.decodeLatitude(FieldOf(data, Lat)).Err? then dec.decodeLatitude(FieldOf(data, Lat)).error
    else if dec.decodeLongitude(FieldOf(data, Lon)).Err? then dec.decodeLongitude(FieldOf(data, Lon)).error
    else dec.decodeExtra(FieldOf(data, Ext)).error
  }

  /** The decoded position depends on the first 13 characters only; what follows
      them is passed through untouched as the remainder. */
  lemma ResultDependsOnChunkOnly(dec: Decoders, a: string, b: string)
    requires |a| >= ChunkWidth && |b| >= ChunkWidth
    requires a[..ChunkWidth] == b[..ChunkWidth]
    ensures PopChunk(dec, a).Ok? <==> PopChunk(dec, b).Ok?
    ensures PopChunk(dec, a).Ok? ==> PopChunk(dec, a).value.result == PopChunk(dec, b).value.result
    ensures PopChunk(dec, a).Err? ==> PopChunk(dec, a).error == PopChunk(dec, b).error
  {
    LayoutOffsets();
    forall f: Field ensures FieldOf(a, f) == FieldOf(b, f) {
      assert FieldOf(a, f) == a[..ChunkWidth][Offset(f)..Offset(f) + Width(f)];
      assert FieldOf(b, f) == b[..ChunkWidth][Offset(f)..Offset(f) + Width(f)];
    }
  }

  /** Putting a decoded chunk's fields back in front of its remainder gives the
      input back: the chunker consumes the five fields and nothing else. */
  lemma FieldsThenRemainderRebuildInput(dec: Decoders, data: string)
    requires |data| >= ChunkWidth
    requires PopChunk(dec, data).Ok?
    ensures Fields(data, Layout) + PopChunk(dec, data).value.remainingData == data
  {
    LayoutPartitionsChunk(data);
  }
}
