/**
 * The Python API service: the file-type check on upload, the map
 * definition a client posts with its defaults, the extraction endpoint
 * that hands that definition to the map decoder, and its own copy of the
 * safe-limit calculator.
 */
module Backend {
  import opened Wrappers
  import opened EcuParser
  import opened SafeLimit

  // ---------------------------------------------------------------------
  // Upload
  // ---------------------------------------------------------------------

  /** The suffixes an uploaded firmware file may end with. */
  const AllowedExtensions: seq<string> := [".bin", ".ori", ".mod", ".hex"]

  /** `str.endswith` with one suffix. */
  predicate EndsWith(s: string, suffix: string)
  {
    |suffix| <= |s| && s[|s| - |suffix|..] == suffix
  }

  /** `str.endswith` with a tuple: some suffix of the tuple matches. */
  predicate EndsWithAny(s: string, suffixes: seq<string>)
    ensures EndsWithAny(s, suffixes) ==> |suffixes| > 0
    ensures EndsWithAny(s, suffixes) ==> exists k :: 0 <= k < |suffixes| && EndsWith(s, suffixes[k])
    decreases |suffixes|
  {
    |suffixes| > 0 && (EndsWith(s, suffixes[0]) || EndsWithAny(s, suffixes[1..]))
  }

  /** An HTTP error answer. */
  datatype HttpError = HttpError(statusCode: nat, detail: string)

  /** The answer to an accepted upload. */
  datatype UploadResponse = UploadResponse(filename: string, size: nat, status: string, checksumValid: bool)

  /**
   * The upload endpoint: a file with an unknown suffix is refused with
   * status 400; otherwise the name and size are reported and the checksum
   * is reported valid (a placeholder with no algorithm behind it).
   */
  function UploadEcuFile(filename: string, content: seq<Byte>): (r: Result<UploadResponse, HttpError>)
    ensures r.Failure? ==> r.error == HttpError(400, "Invalid file type")
    ensures r.Success? ==> r.value.filename == filename && r.value.size == |content|
  {
    if !EndsWithAny(filename, AllowedExtensions) then Failure(HttpError(400, "Invalid file type"))
    else Success(UploadResponse(filename, |content|, "uploaded", true))
  }

  /** `endswith` over a tuple holds exactly when one of its suffixes matches. */
  lemma {:induction false} EndsWithAnyIff(s: string, suffixes: seq<string>)
    ensures EndsWithAny(s, suffixes) <==> exists k :: 0 <= k < |suffixes| && EndsWith(s, suffixes[k])
    decreases |suffixes|
  {
    if |suffixes| > 0 {
      EndsWithAnyIff(s, suffixes[1..]);
      if EndsWithAny(s, suffixes[1..]) {
        var k :| 0 <= k < |suffixes[1..]| && EndsWith(s, suffixes[1..][k]);
        assert EndsWith(s, suffixes[k + 1]);
      }
      if exists k :: 0 <= k < |suffixes| && EndsWith(s, suffixes[k]) {
        var k :| 0 <= k < |suffixes| && EndsWith(s, suffixes[k]);
        if k > 0 {
          assert EndsWith(s, suffixes[1..][k - 1]);
        }
      }
    }
  }

  /**
   * An upload is accepted exactly when the last four characters of its
   * name are one of the four extensions, compared case-sensitively.
   */
  lemma UploadAcceptedIff(filename: string, content: seq<Byte>)
    ensures UploadEcuFile(filename, content).Success?
            <==> |filename| >= 4 && filename[|filename| - 4..] in AllowedExtensions
  {
    EndsWithAnyIff(filename, AllowedExtensions);
    if |filename| >= 4 && filename[|filename| - 4..] in AllowedExtensions {
      var k :| 0 <= k < 4 && AllowedExtensions[k] == filename[|filename| - 4..];
      assert EndsWith(filename, AllowedExtensions[k]);
    }
  }

  /** Examples of accepted names: only the suffix is looked at. */
  lemma UploadAcceptedExamples()
    ensures UploadEcuFile("stage1.bin", []).Success?
    ensures UploadEcuFile(".ori", []).Success?
  {
    assert "stage1.bin"[6..] == ".bin";
    UploadAcceptedIff("stage1.bin", []);
    assert ".ori"[0..] == ".ori";
    UploadAcceptedIff(".ori", []);
  }

  /** Examples of refused names: the comparison is case-sensitive and on the last suffix. */
  lemma UploadRefusedExamples()
    ensures UploadEcuFile("FIRMWARE.BIN", []).Failure?
    ensures UploadEcuFile("dump.bin.txt", []).Failure?
  {
    assert "FIRMWARE.BIN"[8..] == ".BIN";
    UploadAcceptedIff("FIRMWARE.BIN", []);
    assert "dump.bin.txt"[8..] == ".txt";
    UploadAcceptedIff("dump.bin.txt", []);
  }

  // ---------------------------------------------------------------------
  // Map definitions and extraction
  // ---------------------------------------------------------------------

  /** A map's location and encoding as a client describes it. */
  datatype MapDefinition = MapDefinition(
    name: string, startAddress: nat, columns: nat, rows: nat,
    dataType: string, isSigned: bool, conversionFactor: real)

  /**
   * The definition built from posted fields: each optional field left out
   * takes its default, '16bit_hi_lo', unsigned and a factor of 1.0.
   */
  function MakeMapDefinition(name: string, startAddress: nat, columns: nat, rows: nat,
                             dataType: Option<string>, isSigned: Option<bool>,
                             conversionFactor: Option<real>): (d: MapDefinition)
    ensures d.name == name && d.startAddress == startAddress && d.columns == columns && d.rows == rows
    ensures d.dataType == if dataType.Some? then dataType.value else "16bit_hi_lo"
    ensures d.isSigned == if isSigned.Some? then isSigned.value else false
    ensures d.conversionFactor == if conversionFactor.Some? then conversionFactor.value else 1.0
  {
    MapDefinition(name, startAddress, columns, rows,
                  dataType.GetOr("16bit_hi_lo"), isSigned.GetOr(false), conversionFactor.GetOr(1.0))
  }

  /** The extraction endpoint: decode the defined map out of the uploaded bytes. */
  function ExtractMetadata(content: seq<Byte>, d: MapDefinition): (r: Result<seq<seq<real>>, MapError>)
    ensures r.Success? ==> |r.value| == d.rows
  {
    ExtractMapData(content, d.startAddress, d.columns, d.rows, d.dataType, d.isSigned, d.conversionFactor)
  }

  /**
   * A definition that gives only the location reads big-endian unsigned
   * words unscaled: cell (i, j) is the word at start + 2(i * columns + j).
   */
  lemma DefaultDefinitionReadsBigEndianWords(content: seq<Byte>, name: string, startAddress: nat,
                                             columns: nat, rows: nat, grid: seq<seq<real>>, i: nat, j: nat)
    requires ExtractMetadata(content, MakeMapDefinition(name, startAddress, columns, rows, None, None, None))
             == Success(grid)
    requires i < rows && j < columns
    ensures var k := i * columns + j;
            && startAddress + 2 * k + 1 < |content|
            && i < |grid| && j < |grid[i]|
            && grid[i][j] == ((content[startAddress + 2 * k] as int) * 256 + content[startAddress + 2 * k + 1]) as real
  {
    assert DataTypeName(Bit16HiLo) == "16bit_hi_lo";
    ExtractCell(content, startAddress, columns, rows, Bit16HiLo, false, 1.0, grid, i, j);
  }

  /** A definition whose data type is unknown is refused before any byte is read. */
  lemma UnknownDataTypeRefused(content: seq<Byte>, d: MapDefinition)
    requires ParseDataType(d.dataType).None?
    ensures ExtractMetadata(content, d) == Failure(UnsupportedDataType(d.dataType))
  {
  }

  // ---------------------------------------------------------------------
  // Safe limit
  // ---------------------------------------------------------------------

  /** The service's own copy of the strategy table. */
  const StrategyMultipliers: map<string, real> :=
    map["Heavy Duty" := 0.8, "Gasoline" := 1.2, "Diesel" := 1.0, "Eco" := 0.5, "Manual" := 1.5]

  /** The table lookup with a default: a name not in the table gets 1.0. */
  function Multiplier(strategy: string): (m: real)
    ensures m > 0.0
  {
    if strategy in StrategyMultipliers then StrategyMultipliers[strategy] else 1.0
  }

  /** The `/api/safe-limit` endpoint. */
  function CalculateSafeLimit(currentValue: real, strategy: string): (r: SafeLimitResult)
    ensures 0.0 <= r.riskScore <= 100.0
    ensures r.isSafe <==> currentValue <= r.hardLimit
    ensures r.strategy == strategy
  {
    Assess(currentValue, strategy, Multiplier(strategy))
  }

  /** `risk_score` stays in [0, 100] and `is_safe` agrees with `hard_limit = 150 / m`. */
  lemma SafeLimitConsistent(currentValue: real, strategy: string)
    ensures var r := CalculateSafeLimit(currentValue, strategy);
            && 0.0 <= r.riskScore <= 100.0
            && r.hardLimit == 150.0 / Multiplier(strategy)
            && (r.isSafe <==> currentValue <= r.hardLimit)
  {
  }

  /** An unknown name gets the default multiplier 1.0, Diesel's entry. */
  lemma UnknownStrategyDefault(strategy: string)
    requires strategy !in ["Heavy Duty", "Gasoline", "Diesel", "Eco", "Manual"]
    ensures Multiplier(strategy) == 1.0 == Multiplier("Diesel")
  {
  }
}
