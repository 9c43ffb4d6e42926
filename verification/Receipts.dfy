/** The archive receipt as a JSON document: building it, and parsing it back under its file's name. */
module Receipts {
  import opened Options

  datatype Field =
    | ArchiveReceiptVersion | LocalArchiveReceiptVersion | Store | LaneId | WindowStartNs | WindowEndNs | SegmentId
    | SegmentIndex | Source | Seal | Object | Compression | VerifiedAtNs | ArchiverVersion | Durability
    | AuthorizesDeletion | File | ByteLength | LineCount | Sha256 | Key | ProviderChecksum
    | ProviderChecksumAlgorithm | ContentEncoding | Provider | Location | Bucket | S3ChecksumSha256
    | Algorithm | Level | FrameChecksum | Dictionary | FrameCount | Encoder | Other(name: string)

  datatype Json =
    | Null | Bool(b: bool) | Int(n: int) | Float(r: real) | Text(s: string) | Items(items: seq<Json>)
    | Doc(fields: map<Field, Json>)

  function Number(j: Json): Option<real> {
    match j
    case Bool(b) => Some(if b then 1.0 else 0.0)
    case Int(n) => Some(n as real)
    case Float(r) => Some(r)
    case _ => None
  }

  /** Equality as the source's language has it: truth values and numbers compare by value. */
  predicate Same(a: Json, b: Json) {
    if Number(a).Some? || Number(b).Some? then Number(a) == Number(b) else a == b
  }

  function Get(j: Json, f: Field): Option<Json> {
    if j.Doc? && f in j.fields then Some(j.fields[f]) else None
  }

  // ---- one field at a time ------------------------------------------------------------------

  predicate IsText(j: Option<Json>) {
    j.Some? && j.value.Text? && j.value.s != ""
  }

  predicate IsNatural(j: Option<Json>) {
    j.Some? && j.value.Int? && j.value.n >= 0
  }

  predicate Hex(s: string) {
    |s| == 64 && forall i :: 0 <= i < 64 ==> '0' <= s[i] <= '9' || 'a' <= s[i] <= 'f'
  }

  predicate IsDigest(j: Option<Json>) {
    j.Some? && j.value.Text? && Hex(j.value.s)
  }

  predicate Basename(s: string) {
    s != "" && '/' !in s && '\\' !in s && s != "." && s != ".."
  }

  predicate EndsWith(s: string, suffix: string) {
    |suffix| <= |s| && s[|s| - |suffix|..] == suffix
  }

  const DATA_SUFFIX := ".ndjson"
  const SEAL_SUFFIX := ".seal.json"
  const RECEIPT_SUFFIX := ".archive.json"
  const LOCAL_RECEIPT_SUFFIX := ".archive.local.json"

  predicate FilesShareStem(source: string, seal: string) {
    && Basename(source) && Basename(seal) && EndsWith(source, DATA_SUFFIX) && EndsWith(seal, SEAL_SUFFIX)
    && source[..|source| - |DATA_SUFFIX|] == seal[..|seal| - |SEAL_SUFFIX|]
  }

  // ---- the receipt --------------------------------------------------------------------------

  datatype Kind = Production | Local

  datatype Identity = Identity(sha256: string, byteLength: int)

  datatype Checksum = Checksum(value: string, algorithm: string)

  /** `provider` and the checksums are nothing where the store has none to give. */
  datatype Receipt = Receipt(
    kind: Kind, laneId: string, windowStart: int, windowEnd: int, segmentId: string, segmentIndex: int,
    sourceFile: string, source: Identity, sourceLines: int, sealFile: string, sealKey: string, seal: Identity,
    dataKey: string, data: Identity, provider: Option<string>, location: string,
    checksum: Option<Checksum>, sealChecksum: Option<Checksum>, encoder: string, verifiedAt: int)

  const DEFAULT_ZSTD_LEVEL := 3

  function Contract(encoder: string): Json {
    Doc(map[Algorithm := Text("zstd"), Level := Int(DEFAULT_ZSTD_LEVEL), FrameChecksum := Bool(true),
            Dictionary := Null, FrameCount := Int(1), Encoder := Text(encoder)])
  }

  function SourceSection(r: Receipt): Json {
    Doc(map[File := Text(r.sourceFile), ByteLength := Int(r.source.byteLength), LineCount := Int(r.sourceLines),
            Sha256 := Text(r.source.sha256)])
  }

  predicate Given(c: Option<Checksum>) {
    c.Some? && c.value.value != "" && c.value.algorithm != ""
  }

  function StoreSection(r: Receipt): Json
    requires r.provider.Some?
  {
    Doc(map[Provider := Text(r.provider.value), Location := Text(r.location)])
  }

  function SealSection(r: Receipt): Json
    requires r.kind.Production? ==> r.sealChecksum.Some?
  {
    if r.kind.Production? then
      Doc(map[
        File := Text(r.sealFile), ByteLength := Int(r.seal.byteLength), Sha256 := Text(r.seal.sha256),
        Key := Text(r.sealKey), ProviderChecksum := Text(r.sealChecksum.value.value),
        ProviderChecksumAlgorithm := Text(r.sealChecksum.value.algorithm)])
    else
      Doc(map[
        File := Text(r.sealFile), ByteLength := Int(r.seal.byteLength), Sha256 := Text(r.seal.sha256),
        Store := Text(r.location), Key := Text(r.sealKey)])
  }

  function ObjectSection(r: Receipt): Json
    requires r.kind.Production? ==> r.checksum.Some?
  {
    if r.kind.Production? then
      Doc(map[
        Key := Text(r.dataKey), ByteLength := Int(r.data.byteLength), Sha256 := Text(r.data.sha256),
        ProviderChecksum := Text(r.checksum.value.value),
        ProviderChecksumAlgorithm := Text(r.checksum.value.algorithm), ContentEncoding := Text("zstd")])
    else
      Doc(map[
        Store := Text(r.location), Key := Text(r.dataKey), ByteLength := Int(r.data.byteLength),
        Sha256 := Text(r.data.sha256), ContentEncoding := Text("zstd")])
  }

  predicate Buildable(r: Receipt) {
    r.kind.Production? ==> r.provider.Some? && r.provider.value != "" && Given(r.checksum) && Given(r.sealChecksum)
  }

  /** The document for a receipt; a production receipt needs its provider and both checksums. */
  function Build(r: Receipt): Option<Json> {
    if !Buildable(r) then None
    else if r.kind.Production? then
      Some(Doc(map[
        ArchiveReceiptVersion := Int(2), Store := StoreSection(r),
        LaneId := Text(r.laneId), WindowStartNs := Int(r.windowStart), WindowEndNs := Int(r.windowEnd),
        SegmentId := Text(r.segmentId), SegmentIndex := Int(r.segmentIndex),
        Source := SourceSection(r), Seal := SealSection(r), Object := ObjectSection(r),
        Compression := Contract(r.encoder), VerifiedAtNs := Int(r.verifiedAt), ArchiverVersion := Int(1)]))
    else
      Some(Doc(map[
        LocalArchiveReceiptVersion := Int(1),
        LaneId := Text(r.laneId), WindowStartNs := Int(r.windowStart), WindowEndNs := Int(r.windowEnd),
        SegmentId := Text(r.segmentId), SegmentIndex := Int(r.segmentIndex),
        Source := SourceSection(r), Seal := SealSection(r), Object := ObjectSection(r),
        Compression := Contract(r.encoder), VerifiedAtNs := Int(r.verifiedAt), ArchiverVersion := Int(1),
        Durability := Text("local_conformance"), AuthorizesDeletion := Bool(false)]))
  }

  // ---- parsing ------------------------------------------------------------------------------

  /** Base64 over the hexadecimal of a digest, both ways. */
  datatype Base64 = Base64(encode: string -> string, decode: string -> Option<string>)

  const RECEIPT_FIELDS: set<Field> := {
    ArchiveReceiptVersion, Store, LaneId, WindowStartNs, WindowEndNs, SegmentId, SegmentIndex, Source, Seal,
    Object, Compression, VerifiedAtNs, ArchiverVersion}
  const SOURCE_FIELDS: set<Field> := {File, ByteLength, LineCount, Sha256}
  const SEAL_FIELDS: set<Field> := {File, ByteLength, Sha256, Key, ProviderChecksum, ProviderChecksumAlgorithm}
  const OBJECT_FIELDS: set<Field> :=
    {Key, ByteLength, Sha256, ProviderChecksum, ProviderChecksumAlgorithm, ContentEncoding}
  const COMPRESSION_FIELDS: set<Field> := {Algorithm, Level, FrameChecksum, Dictionary, FrameCount, Encoder}

  predicate Exactly(j: Json, fields: set<Field>) {
    j.Doc? && j.fields.Keys == fields
  }

  /** Which kind and version a document claims, by which version field it carries. */
  function Claims(d: Json): Option<(Kind, int)> {
    var p, l := Get(d, ArchiveReceiptVersion), Get(d, LocalArchiveReceiptVersion);
    if p.Some? == l.Some? then None
    else if p.Some? then
      (if Number(p.value) == Some(1.0) then Some((Production, 1))
       else if Number(p.value) == Some(2.0) then Some((Production, 2)) else None)
    else if Number(l.value) == Some(1.0) then Some((Local, 1)) else None
  }

  predicate HeadOk(d: Json) {
    && IsText(Get(d, LaneId)) && IsText(Get(d, SegmentId))
    && IsNatural(Get(d, WindowStartNs)) && IsNatural(Get(d, WindowEndNs))
    && Get(d, WindowStartNs).value.n < Get(d, WindowEndNs).value.n
    && IsNatural(Get(d, SegmentIndex)) && IsNatural(Get(d, VerifiedAtNs))
    && Get(d, ArchiverVersion) == Some(Int(1))
  }

  predicate SectionOk(j: Option<Json>) {
    j.Some? && j.value.Doc? && IsNatural(Get(j.value, ByteLength)) && IsDigest(Get(j.value, Sha256))
  }

  predicate SectionsOk(d: Json) {
    && SectionOk(Get(d, Source)) && SectionOk(Get(d, Seal)) && SectionOk(Get(d, Object))
    && var source, seal, data := Get(d, Source).value, Get(d, Seal).value, Get(d, Object).value;
       && IsText(Get(source, File)) && IsText(Get(seal, File))
       && FilesShareStem(Get(source, File).value.s, Get(seal, File).value.s) && IsNatural(Get(source, LineCount))
       && IsText(Get(seal, Key)) && IsText(Get(data, Key)) && Get(data, ContentEncoding) == Some(Text("zstd"))
  }

  predicate CompressionOk(j: Option<Json>) {
    && j.Some? && j.value.Doc? && IsText(Get(j.value, Encoder))
    && forall f :: f in {Algorithm, Level, FrameChecksum, Dictionary, FrameCount} ==>
         Same(if Get(j.value, f).Some? then Get(j.value, f).value else Null, Contract("").fields[f])
  }

  predicate ExactFields(d: Json) {
    && Exactly(d, RECEIPT_FIELDS) && Exactly(d.fields[Source], SOURCE_FIELDS) && Exactly(d.fields[Seal], SEAL_FIELDS)
    && Exactly(d.fields[Object], OBJECT_FIELDS) && Exactly(d.fields[Compression], COMPRESSION_FIELDS)
    && Exactly(d.fields[Store], {Provider, Location})
  }

  /** What a parsed receipt says about the store. */
  datatype Place = Place(
    provider: Option<string>, location: string, checksum: Option<Checksum>, sealChecksum: Option<Checksum>)

  function ChecksumOf(section: Json): Option<Checksum> {
    if IsText(Get(section, ProviderChecksum)) && IsText(Get(section, ProviderChecksumAlgorithm)) then
      Some(Checksum(Get(section, ProviderChecksum).value.s, Get(section, ProviderChecksumAlgorithm).value.s))
    else None
  }

  function PlaceOf(d: Json, claims: (Kind, int), base64: Base64): Option<Place>
    requires SectionsOk(d)
  {
    var seal, data := Get(d, Seal).value, Get(d, Object).value;
    if claims == (Production, 2) then
      if !ExactFields(d) || !IsText(Get(Get(d, Store).value, Provider)) || !IsText(Get(Get(d, Store).value, Location))
         || ChecksumOf(data).None? || ChecksumOf(seal).None? then None
      else
        Some(Place(Some(Get(Get(d, Store).value, Provider).value.s), Get(Get(d, Store).value, Location).value.s,
                   ChecksumOf(data), ChecksumOf(seal)))
    else if claims.0.Production? then
      if !IsText(Get(data, Bucket)) || Get(seal, Bucket) != Get(data, Bucket) || !IsText(Get(data, S3ChecksumSha256))
         || base64.decode(Get(data, S3ChecksumSha256).value.s) != Some(Get(data, Sha256).value.s) then None
      else
        Some(Place(None, Get(data, Bucket).value.s, Some(Checksum(Get(data, S3ChecksumSha256).value.s, "SHA256")),
                   Some(Checksum(base64.encode(Get(seal, Sha256).value.s), "SHA256"))))
    else if !IsText(Get(data, Store)) || Get(seal, Store) != Get(data, Store)
            || Get(data, Bucket).Some? || Get(seal, Bucket).Some?
            || Get(data, S3ChecksumSha256).Some? || Get(seal, S3ChecksumSha256).Some?
            || Get(d, AuthorizesDeletion) != Some(Bool(false)) then None
    else Some(Place(Some("local"), Get(data, Store).value.s, None, None))
  }

  /** The receipt a document holds, or nothing when it is malformed or sits under another kind's name. */
  function Parse(d: Json, name: string, base64: Base64): Option<Receipt> {
    var claims := Claims(d);
    if claims.None? || !EndsWith(name, if claims.value.0.Production? then RECEIPT_SUFFIX else LOCAL_RECEIPT_SUFFIX)
       || !HeadOk(d) || !SectionsOk(d) || !CompressionOk(Get(d, Compression)) then None
    else
      var place := PlaceOf(d, claims.value, base64);
      if place.None? then None
      else
        var source, seal, data := Get(d, Source).value, Get(d, Seal).value, Get(d, Object).value;
        Some(Receipt(
          claims.value.0, Get(d, LaneId).value.s, Get(d, WindowStartNs).value.n, Get(d, WindowEndNs).value.n,
          Get(d, SegmentId).value.s, Get(d, SegmentIndex).value.n,
          Get(source, File).value.s, IdentityOf(source), Get(source, LineCount).value.n,
          Get(seal, File).value.s, Get(seal, Key).value.s, IdentityOf(seal),
          Get(data, Key).value.s, IdentityOf(data),
          place.value.provider, place.value.location, place.value.checksum, place.value.sealChecksum,
          Get(Get(d, Compression).value, Encoder).value.s, Get(d, VerifiedAtNs).value.n))
  }

  function IdentityOf(section: Json): Identity
    requires SectionOk(Some(section))
  {
    Identity(Get(section, Sha256).value.s, Get(section, ByteLength).value.n)
  }

  // ---- round trips --------------------------------------------------------------------------

  /** What a receipt's own fields must be like to be read back. */
  predicate FieldsOk(r: Receipt) {
    && r.laneId != "" && r.segmentId != "" && 0 <= r.windowStart < r.windowEnd && r.segmentIndex >= 0
    && r.verifiedAt >= 0 && FilesShareStem(r.sourceFile, r.sealFile) && r.sealKey != "" && r.dataKey != ""
    && IdentityOk(r.source) && r.sourceLines >= 0 && IdentityOk(r.seal) && IdentityOk(r.data)
    && r.location != "" && r.encoder != ""
  }

  predicate IdentityOk(i: Identity) {
    Hex(i.sha256) && i.byteLength >= 0
  }

  /** A local receipt says nothing about its provider or checksums. */
  function AsRead(r: Receipt): Receipt {
    if r.kind.Production? then r else r.(provider := Some("local"), checksum := None, sealChecksum := None)
  }

  function Suffix(kind: Kind): string {
    if kind.Production? then RECEIPT_SUFFIX else LOCAL_RECEIPT_SUFFIX
  }

  /** What is built is read back, exactly when its fields are well formed and its file is named for its
      kind; otherwise it is refused. */
  lemma BuildThenParse(r: Receipt, name: string, base64: Base64)
    requires Build(r).Some?
    ensures Parse(Build(r).value, name, base64) ==
            if FieldsOk(r) && EndsWith(name, Suffix(r.kind)) then Some(AsRead(r)) else None
  {
    var d := Build(r).value;
    BuiltClaims(r);
    BuiltHead(r);
    BuiltSections(r);
    BuiltCompression(r);
    BuiltParts(r);
    SectionParts(r);
    if SectionsOk(d) {
      BuiltPlace(r, base64);
    }
    hide Get, SourceSection, SealSection, ObjectSection, Contract, Build, Claims, HeadOk, SectionsOk, CompressionOk,
         PlaceOf;
  }

  lemma BuiltClaims(r: Receipt)
    requires Build(r).Some?
    ensures Claims(Build(r).value) == Some((r.kind, if r.kind.Production? then 2 else 1))
  {
    hide SourceSection, SealSection, ObjectSection, StoreSection, Contract;
  }

  /** Where each part of the receipt stands in the document. */
  lemma BuiltParts(r: Receipt)
    requires Build(r).Some?
    ensures var d := Build(r).value;
            && Get(d, LaneId) == Some(Text(r.laneId)) && Get(d, SegmentId) == Some(Text(r.segmentId))
            && Get(d, WindowStartNs) == Some(Int(r.windowStart)) && Get(d, WindowEndNs) == Some(Int(r.windowEnd))
            && Get(d, SegmentIndex) == Some(Int(r.segmentIndex)) && Get(d, VerifiedAtNs) == Some(Int(r.verifiedAt))
            && Get(d, ArchiverVersion) == Some(Int(1))
            && Get(d, Source) == Some(SourceSection(r)) && Get(d, Seal) == Some(SealSection(r))
            && Get(d, Object) == Some(ObjectSection(r)) && Get(d, Compression) == Some(Contract(r.encoder))
  {
    hide Build, SourceSection, SealSection, ObjectSection, StoreSection, Contract, Get;
    BuiltIsBuildable(r);
    BuiltHeadParts(r);
    BuiltSectionParts(r);
  }

  lemma BuiltIsBuildable(r: Receipt)
    requires Build(r).Some?
    ensures Buildable(r)
  {
  }

  lemma BuiltHeadParts(r: Receipt)
    requires Build(r).Some?
    ensures var d := Build(r).value;
            && Get(d, LaneId) == Some(Text(r.laneId)) && Get(d, SegmentId) == Some(Text(r.segmentId))
            && Get(d, WindowStartNs) == Some(Int(r.windowStart)) && Get(d, WindowEndNs) == Some(Int(r.windowEnd))
            && Get(d, SegmentIndex) == Some(Int(r.segmentIndex)) && Get(d, VerifiedAtNs) == Some(Int(r.verifiedAt))
            && Get(d, ArchiverVersion) == Some(Int(1))
  {
    hide SourceSection, SealSection, ObjectSection, StoreSection, Contract;
  }

  lemma BuiltSectionParts(r: Receipt)
    requires Build(r).Some?
    ensures var d := Build(r).value;
            && Get(d, Source) == Some(SourceSection(r)) && Get(d, Seal) == Some(SealSection(r))
            && Get(d, Object) == Some(ObjectSection(r)) && Get(d, Compression) == Some(Contract(r.encoder))
  {
    hide SourceSection, SealSection, ObjectSection, StoreSection, Contract;
  }

  lemma BuiltHead(r: Receipt)
    requires Build(r).Some?
    ensures HeadOk(Build(r).value) <==>
              && r.laneId != "" && r.segmentId != "" && 0 <= r.windowStart < r.windowEnd
              && r.segmentIndex >= 0 && r.verifiedAt >= 0
  {
    BuiltParts(r);
    hide Build, Get;
  }

  /** What each section says. */
  lemma SectionParts(r: Receipt)
    requires Buildable(r)
    ensures var source, seal, data := SourceSection(r), SealSection(r), ObjectSection(r);
            && Get(source, File) == Some(Text(r.sourceFile)) && Get(source, LineCount) == Some(Int(r.sourceLines))
            && Get(source, Sha256) == Some(Text(r.source.sha256))
            && Get(source, ByteLength) == Some(Int(r.source.byteLength))
            && Get(seal, File) == Some(Text(r.sealFile)) && Get(seal, Key) == Some(Text(r.sealKey))
            && Get(seal, Sha256) == Some(Text(r.seal.sha256)) && Get(seal, ByteLength) == Some(Int(r.seal.byteLength))
            && Get(data, Key) == Some(Text(r.dataKey)) && Get(data, Sha256) == Some(Text(r.data.sha256))
            && Get(data, ByteLength) == Some(Int(r.data.byteLength)) && Get(data, ContentEncoding) == Some(Text("zstd"))
            && source.Doc? && seal.Doc? && data.Doc?
  {
  }

  lemma BuiltSections(r: Receipt)
    requires Build(r).Some?
    ensures SectionsOk(Build(r).value) <==>
              && FilesShareStem(r.sourceFile, r.sealFile) && r.sealKey != "" && r.dataKey != ""
              && IdentityOk(r.source) && r.sourceLines >= 0 && IdentityOk(r.seal) && IdentityOk(r.data)
  {
    hide Build, Get, SourceSection, SealSection, ObjectSection, FilesShareStem, Hex;
    BuiltIsBuildable(r);
    BuiltSectionParts(r);
    SectionParts(r);
    StemsAreNames(r);
  }

  lemma StemsAreNames(r: Receipt)
    ensures FilesShareStem(r.sourceFile, r.sealFile) ==> r.sourceFile != "" && r.sealFile != ""
  {
  }

  lemma BuiltCompression(r: Receipt)
    requires Build(r).Some?
    ensures Get(Build(r).value, Compression) == Some(Contract(r.encoder))
    ensures CompressionOk(Get(Build(r).value, Compression)) <==> r.encoder != ""
    ensures Get(Contract(r.encoder), Encoder) == Some(Text(r.encoder))
  {
    BuiltParts(r);
    hide Build;
  }

  lemma BuiltPlace(r: Receipt, base64: Base64)
    requires Build(r).Some? && SectionsOk(Build(r).value)
    ensures PlaceOf(Build(r).value, (r.kind, if r.kind.Production? then 2 else 1), base64) ==
            if r.location == "" then None
            else Some(Place(AsRead(r).provider, r.location, AsRead(r).checksum, AsRead(r).sealChecksum))
  {
    if r.kind.Production? {
      BuiltProductionPlace(r, base64);
    } else {
      BuiltLocalPlace(r, base64);
    }
    hide Build, PlaceOf, SectionsOk;
  }

  lemma BuiltExactly(r: Receipt)
    requires Build(r).Some? && r.kind.Production?
    ensures ExactFields(Build(r).value)
    ensures Get(Build(r).value, Store) == Some(StoreSection(r))
  {
    hide Build, SourceSection, SealSection, ObjectSection, StoreSection, Contract, Exactly;
    BuiltIsBuildable(r);
    ExactSections(r);
    BuiltKeys(r);
    BuiltSectionParts(r);
    AllExact(Build(r).value);
  }

  lemma AllExact(d: Json)
    requires d.Doc? && d.fields.Keys == RECEIPT_FIELDS
    ensures Exactly(d, RECEIPT_FIELDS) && forall f :: f in RECEIPT_FIELDS ==> Get(d, f) == Some(d.fields[f])
  {
  }

  lemma ExactSections(r: Receipt)
    requires Buildable(r) && r.kind.Production?
    ensures Exactly(SourceSection(r), SOURCE_FIELDS) && Exactly(SealSection(r), SEAL_FIELDS)
    ensures Exactly(ObjectSection(r), OBJECT_FIELDS) && Exactly(Contract(r.encoder), COMPRESSION_FIELDS)
    ensures Exactly(StoreSection(r), {Provider, Location})
    ensures ChecksumOf(ObjectSection(r)) == r.checksum && ChecksumOf(SealSection(r)) == r.sealChecksum
  {
    ExactObject(r);
    ExactSeal(r);
    hide ChecksumOf, ObjectSection, SealSection;
  }

  lemma ExactObject(r: Receipt)
    requires Buildable(r) && r.kind.Production?
    ensures Exactly(ObjectSection(r), OBJECT_FIELDS) && ChecksumOf(ObjectSection(r)) == r.checksum
  {
  }

  lemma ExactSeal(r: Receipt)
    requires Buildable(r) && r.kind.Production?
    ensures Exactly(SealSection(r), SEAL_FIELDS) && ChecksumOf(SealSection(r)) == r.sealChecksum
  {
  }

  lemma BuiltProductionPlace(r: Receipt, base64: Base64)
    requires Build(r).Some? && SectionsOk(Build(r).value) && r.kind.Production?
    ensures PlaceOf(Build(r).value, (Production, 2), base64) ==
            if r.location != "" then Some(Place(r.provider, r.location, r.checksum, r.sealChecksum)) else None
  {
    BuiltExactly(r);
    BuiltParts(r);
    ExactSections(r);
    assert r.provider.Some? && r.provider.value != "" && r.checksum.Some? && r.sealChecksum.Some?;
    hide Build, SectionsOk, ExactFields, ChecksumOf, SealSection, ObjectSection;
  }

  lemma BuiltLocalPlace(r: Receipt, base64: Base64)
    requires Build(r).Some? && SectionsOk(Build(r).value) && r.kind.Local?
    ensures PlaceOf(Build(r).value, (Local, 1), base64) ==
            if r.location != "" then Some(Place(Some("local"), r.location, None, None)) else None
  {
    BuiltParts(r);
    LocalSections(r);
    BuiltAuthority(r);
    hide Build, Get, SectionsOk, ExactFields, ChecksumOf, SealSection, ObjectSection;
  }

  lemma LocalSections(r: Receipt)
    requires r.kind.Local?
    ensures var seal, data := SealSection(r), ObjectSection(r);
            && Get(seal, Store) == Some(Text(r.location)) && Get(data, Store) == Some(Text(r.location))
            && Get(seal, Bucket).None? && Get(data, Bucket).None?
            && Get(seal, S3ChecksumSha256).None? && Get(data, S3ChecksumSha256).None?
  {
  }

  lemma BuiltAuthority(r: Receipt)
    requires r.kind.Local?
    ensures Build(r).Some? && Get(Build(r).value, AuthorizesDeletion) == Some(Bool(false))
  {
    hide SourceSection, SealSection, ObjectSection, Contract;
  }

  // ---- and back ------------------------------------------------------------------------------

  /** Equal field by field, numbers by value. */
  predicate SameFields(a: Json, b: Json) {
    a.Doc? && b.Doc? && a.fields.Keys == b.fields.Keys && forall f :: f in a.fields ==> Same(a.fields[f], b.fields[f])
  }

  /** A current production document that is accepted is the document of the receipt it was read as, field
      for field; only its version and its compression numbers may be spelled another way. */
  lemma ParseThenBuild(d: Json, name: string, base64: Base64)
    requires Parse(d, name, base64).Some? && Claims(d) == Some((Production, 2))
    ensures var r := Parse(d, name, base64).value;
            && Build(r).Some? && FieldsOk(r) && d.Doc? && d.fields.Keys == Build(r).value.fields.Keys
            && (forall f :: f in d.fields && f != ArchiveReceiptVersion && f != Compression ==>
                  d.fields[f] == Build(r).value.fields[f])
            && SameFields(d.fields[Compression], Build(r).value.fields[Compression])
            && Same(d.fields[ArchiveReceiptVersion], Build(r).value.fields[ArchiveReceiptVersion])
  {
    var r := Parse(d, name, base64).value;
    ReadPlace(d, r, name, base64);
    ReadHead(d, r, name, base64);
    ReadSections(d, r, name, base64);
    assert d.Doc? && d.fields.Keys == RECEIPT_FIELDS && FieldsOk(r) && Build(r).Some?;
    BuiltKeys(r);
    BuiltFields(r);
    hide Build, Parse, Claims, HeadOk, SectionsOk, CompressionOk, PlaceOf, SourceSection, SealSection, ObjectSection,
         StoreSection, Contract, ExactFields, FieldsOk, SameFields, Same;
    var b := Build(r).value;
    FieldByField(d, b);
  }

  lemma FieldByField(d: Json, b: Json)
    requires d.Doc? && b.Doc? && d.fields.Keys == b.fields.Keys == RECEIPT_FIELDS
    requires d.fields[Store] == b.fields[Store] && d.fields[LaneId] == b.fields[LaneId]
    requires d.fields[WindowStartNs] == b.fields[WindowStartNs] && d.fields[WindowEndNs] == b.fields[WindowEndNs]
    requires d.fields[SegmentId] == b.fields[SegmentId] && d.fields[SegmentIndex] == b.fields[SegmentIndex]
    requires d.fields[Source] == b.fields[Source] && d.fields[Seal] == b.fields[Seal]
    requires d.fields[Object] == b.fields[Object] && d.fields[VerifiedAtNs] == b.fields[VerifiedAtNs]
    requires d.fields[ArchiverVersion] == b.fields[ArchiverVersion]
    ensures forall f :: f in d.fields && f != ArchiveReceiptVersion && f != Compression ==> d.fields[f] == b.fields[f]
  {
    forall f | f in d.fields && f != ArchiveReceiptVersion && f != Compression ensures d.fields[f] == b.fields[f] {
      assert f in RECEIPT_FIELDS;
    }
  }

  lemma BuiltFields(r: Receipt)
    requires Build(r).Some? && r.kind.Production?
    ensures var b := Build(r).value;
            && b.Doc? && b.fields.Keys == RECEIPT_FIELDS
            && b.fields[LaneId] == Text(r.laneId) && b.fields[SegmentId] == Text(r.segmentId)
            && b.fields[WindowStartNs] == Int(r.windowStart) && b.fields[WindowEndNs] == Int(r.windowEnd)
            && b.fields[SegmentIndex] == Int(r.segmentIndex) && b.fields[VerifiedAtNs] == Int(r.verifiedAt)
            && b.fields[Source] == SourceSection(r) && b.fields[Seal] == SealSection(r)
            && b.fields[Object] == ObjectSection(r) && b.fields[Compression] == Contract(r.encoder)
  {
    BuiltKeys(r);
    BuiltParts(r);
    hide Build, SourceSection, SealSection, ObjectSection, StoreSection, Contract;
  }

  lemma BuiltKeys(r: Receipt)
    requires Build(r).Some? && r.kind.Production?
    ensures Build(r).value.Doc? && Build(r).value.fields.Keys == RECEIPT_FIELDS
    ensures Build(r).value.fields[ArchiveReceiptVersion] == Int(2) && Build(r).value.fields[Store] == StoreSection(r)
    ensures Build(r).value.fields[ArchiverVersion] == Int(1)
  {
    hide SourceSection, SealSection, ObjectSection, StoreSection, Contract;
  }

  lemma ReadPlace(d: Json, r: Receipt, name: string, base64: Base64)
    requires Parse(d, name, base64) == Some(r) && Claims(d) == Some((Production, 2))
    ensures ExactFields(d) && r.kind.Production? && Buildable(r) && r.location != ""
    ensures d.fields[Store] == StoreSection(r)
    ensures r.checksum == ChecksumOf(d.fields[Object]) && r.sealChecksum == ChecksumOf(d.fields[Seal])
    ensures Same(d.fields[ArchiveReceiptVersion], Int(2))
  {
    hide HeadOk, CompressionOk, FilesShareStem, Hex;
    var store := d.fields[Store];
    assert store.fields == map[Provider := Text(r.provider.value), Location := Text(r.location)];
  }

  lemma ReadHead(d: Json, r: Receipt, name: string, base64: Base64)
    requires Parse(d, name, base64) == Some(r) && Claims(d) == Some((Production, 2)) && ExactFields(d)
    ensures r.laneId != "" && r.segmentId != "" && 0 <= r.windowStart < r.windowEnd && r.segmentIndex >= 0
    ensures r.verifiedAt >= 0 && r.encoder != ""
    ensures d.fields[LaneId] == Text(r.laneId) && d.fields[SegmentId] == Text(r.segmentId)
    ensures d.fields[WindowStartNs] == Int(r.windowStart) && d.fields[WindowEndNs] == Int(r.windowEnd)
    ensures d.fields[SegmentIndex] == Int(r.segmentIndex) && d.fields[VerifiedAtNs] == Int(r.verifiedAt)
    ensures d.fields[ArchiverVersion] == Int(1)
    ensures SameFields(d.fields[Compression], Contract(r.encoder))
  {
    hide PlaceOf, FilesShareStem, Hex, SectionsOk;
    ReadCompression(d, r, name, base64);
    hide CompressionOk, SameFields, Contract;
  }

  lemma ReadCompression(d: Json, r: Receipt, name: string, base64: Base64)
    requires Parse(d, name, base64) == Some(r) && Claims(d) == Some((Production, 2)) && ExactFields(d)
    ensures r.encoder != "" && SameFields(d.fields[Compression], Contract(r.encoder))
  {
    Contracted(d, r, name, base64);
    hide PlaceOf, SectionsOk, HeadOk, Parse, Claims, CompressionOk, SameFields, Contract;
    ContractFields(d.fields[Compression], r.encoder);
  }

  lemma ContractFields(c: Json, encoder: string)
    requires Exactly(c, COMPRESSION_FIELDS) && CompressionOk(Some(c)) && Get(c, Encoder) == Some(Text(encoder))
    ensures encoder != "" && SameFields(c, Contract(encoder))
  {
    hide Same;
    forall f | f in c.fields ensures Same(c.fields[f], Contract(encoder).fields[f]) {
      assert f in COMPRESSION_FIELDS;
      if f == Encoder {
        SameAsItself(c.fields[f]);
      } else {
        assert Contract(encoder).fields[f] == Contract("").fields[f];
        assert Get(c, f) == Some(c.fields[f]);
      }
    }
  }

  lemma SameAsItself(j: Json)
    ensures Same(j, j)
  {
  }

  lemma Contracted(d: Json, r: Receipt, name: string, base64: Base64)
    requires Parse(d, name, base64) == Some(r)
    ensures CompressionOk(Get(d, Compression)) && Get(Get(d, Compression).value, Encoder) == Some(Text(r.encoder))
  {
    hide PlaceOf, SectionsOk, HeadOk;
  }

  lemma ReadSections(d: Json, r: Receipt, name: string, base64: Base64)
    requires Parse(d, name, base64) == Some(r) && Claims(d) == Some((Production, 2)) && ExactFields(d)
    requires r.kind.Production? && Buildable(r)
    requires r.checksum == ChecksumOf(d.fields[Object]) && r.sealChecksum == ChecksumOf(d.fields[Seal])
    ensures d.fields[Source] == SourceSection(r) && d.fields[Seal] == SealSection(r)
    ensures d.fields[Object] == ObjectSection(r)
    ensures FilesShareStem(r.sourceFile, r.sealFile) && r.sealKey != "" && r.dataKey != ""
    ensures IdentityOk(r.source) && r.sourceLines >= 0 && IdentityOk(r.seal) && IdentityOk(r.data)
  {
    hide PlaceOf, HeadOk, CompressionOk, FilesShareStem, Hex;
    var source, seal, data := d.fields[Source], d.fields[Seal], d.fields[Object];
    assert source.fields == SourceSection(r).fields;
    assert seal.fields == SealSection(r).fields;
    assert data.fields == ObjectSection(r).fields;
  }

  // ---- what the checks on single fields mean ------------------------------------------------

  /** The two file names of a segment, and no path leads through them. */
  predicate NamedFor(source: string, seal: string, stem: string) {
    source == stem + ".ndjson" && seal == stem + ".seal.json" && '/' !in stem && '\\' !in stem
  }

  lemma FilesShareStemExactly(source: string, seal: string)
    ensures FilesShareStem(source, seal) <==> exists stem: string :: NamedFor(source, seal, stem)
  {
    hide FilesShareStem, NamedFor;
    if FilesShareStem(source, seal) {
      var stem := StemOf(source, seal);
    }
    if stem: string :| NamedFor(source, seal, stem) {
      StemsAreShared(source, seal, stem);
    }
  }

  lemma StemOf(source: string, seal: string) returns (stem: string)
    requires FilesShareStem(source, seal)
    ensures NamedFor(source, seal, stem)
  {
    stem := source[..|source| - |DATA_SUFFIX|];
    assert source == stem + DATA_SUFFIX;
    assert seal == stem + SEAL_SUFFIX;
  }

  lemma StemsAreShared(source: string, seal: string, stem: string)
    requires NamedFor(source, seal, stem)
    ensures FilesShareStem(source, seal)
  {
    assert source[..|source| - |DATA_SUFFIX|] == stem && seal[..|seal| - |SEAL_SUFFIX|] == stem;
    assert source[|source| - |DATA_SUFFIX|..] == DATA_SUFFIX && seal[|seal| - |SEAL_SUFFIX|..] == SEAL_SUFFIX;
    assert '/' !in DATA_SUFFIX && '\\' !in DATA_SUFFIX && '/' !in SEAL_SUFFIX && '\\' !in SEAL_SUFFIX;
  }

  lemma HexExactly(s: string)
    ensures Hex(s) <==> |s| == 64 && forall c :: c in s ==> c in "0123456789abcdef"
  {
    forall i | 0 <= i < |s| ensures s[i] in "0123456789abcdef" <==> '0' <= s[i] <= '9' || 'a' <= s[i] <= 'f' {
      HexDigit(s[i]);
    }
  }

  lemma HexDigit(c: char)
    ensures c in "0123456789abcdef" <==> '0' <= c <= '9' || 'a' <= c <= 'f'
  {
    if '0' <= c <= '9' {
      assert c == "0123456789abcdef"[c as int - '0' as int];
    } else if 'a' <= c <= 'f' {
      assert c == "0123456789abcdef"[c as int - 'a' as int + 10];
    }
  }

  /** Truth values, whole numbers and others compare by value, and with nothing else. */
  lemma NumbersCompareByValue(b: bool, n: int, r: real, other: Json)
    requires other.Null? || other.Text? || other.Items? || other.Doc?
    ensures Same(Bool(b), Int(n)) <==> n == if b then 1 else 0
    ensures Same(Int(n), Float(r)) <==> n as real == r
    ensures !Same(Bool(b), other) && !Same(other, Int(n)) && !Same(Float(r), other)
  {
  }

  /** The documents of the first version and of local stores: where each names its store, what that has to
      agree with, and what is read from it. */
  lemma OlderDocumentsRead(d: Json, name: string, base64: Base64)
    requires Claims(d).Some? && HeadOk(d) && SectionsOk(d) && CompressionOk(Get(d, Compression))
    requires EndsWith(name, Suffix(Claims(d).value.0))
    ensures var data, seal, parsed := Get(d, Object).value, Get(d, Seal).value, Parse(d, name, base64);
            && (Claims(d) == Some((Production, 1)) ==>
                  (parsed.Some? <==>
                     exists bucket: string, sum: string :: bucket != "" && sum != ""
                       && Get(data, Bucket) == Some(Text(bucket)) == Get(seal, Bucket)
                       && Get(data, S3ChecksumSha256) == Some(Text(sum))
                       && base64.decode(sum).Some? && Get(data, Sha256) == Some(Text(base64.decode(sum).value))))
            && (Claims(d) == Some((Production, 1)) && parsed.Some? ==>
                  && parsed.value.provider.None? && Get(data, Bucket) == Some(Text(parsed.value.location))
                  && parsed.value.checksum.Some? && parsed.value.checksum.value.algorithm == "SHA256"
                  && base64.decode(parsed.value.checksum.value.value) == Some(parsed.value.data.sha256)
                  && parsed.value.sealChecksum == Some(Checksum(base64.encode(parsed.value.seal.sha256), "SHA256")))
            && (Claims(d).value.0.Local? ==>
                  (parsed.Some? <==>
                     && (exists store: string ::
                           store != "" && Get(data, Store) == Some(Text(store)) == Get(seal, Store))
                     && Get(d, AuthorizesDeletion) == Some(Bool(false))
                     && (forall f :: f in {Bucket, S3ChecksumSha256} ==> Get(data, f).None? && Get(seal, f).None?)))
            && (Claims(d).value.0.Local? && parsed.Some? ==>
                  Get(data, Store) == Some(Text(parsed.value.location)) && parsed.value.checksum.None?)
  {
    hide HeadOk, CompressionOk, Claims, EndsWith, FilesShareStem, Hex;
  }

  /** A local conformance receipt never reads as deletion authority, under whatever name it is put, and no
      name of a local receipt ever yields a production one. */
  lemma LocalNeverAuthorizes(r: Receipt, d: Json, name: string, base64: Base64)
    ensures r.kind.Local? && Parse(Build(r).value, name, base64).Some? ==>
              Parse(Build(r).value, name, base64).value.kind.Local?
    ensures EndsWith(name, LOCAL_RECEIPT_SUFFIX) && Parse(d, name, base64).Some? ==>
              Parse(d, name, base64).value.kind.Local?
  {
    if r.kind.Local? {
      BuiltClaims(r);
    }
    if EndsWith(name, LOCAL_RECEIPT_SUFFIX) {
      NotBothSuffixes(name);
    }
    hide HeadOk, SectionsOk, CompressionOk, PlaceOf, EndsWith;
  }

  lemma NotBothSuffixes(name: string)
    requires EndsWith(name, LOCAL_RECEIPT_SUFFIX)
    ensures !EndsWith(name, RECEIPT_SUFFIX)
  {
    assert name[|name| - 11] == name[|name| - 19..][8] == '.';
    if EndsWith(name, RECEIPT_SUFFIX) {
      ThirdLetter(name);
    }
  }

  lemma ThirdLetter(name: string)
    requires EndsWith(name, RECEIPT_SUFFIX)
    ensures |name| >= 13 && name[|name| - 11] == 'r'
  {
    assert name[|name| - 11] == name[|name| - 13..][2];
  }
}
