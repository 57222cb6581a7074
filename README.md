# ECU tuning tool: map decoder and safe-limit engine

This project models the two pieces of real logic in an ECU (engine control
unit) tuning tool, and proves properties of the model in Dafny.

- **Map decoder** (`EcuParser`, `ecu_parser.dfy`). `extract_map_data` reads a
  calibration table of `rows × columns` cells out of a firmware image. The
  read starts at a given offset. A cell is one byte (`8bit`) or one 16-bit
  word, high byte first (`16bit_hi_lo`) or low byte first (`16bit_lo_hi`).
  Cells are signed (two's complement) or unsigned, and each is multiplied
  by a conversion factor. The decoder refuses an unknown cell format
  (ValueError) and a read past the end of the image (IndexError). It returns
  the cells row by row. Bytes are integers in 0..255, and scaled values are
  `real`.
- **Safe-limit engine** (`SafeLimit`, `safe_limit.dfy`). This is the
  arithmetic both backends share. A strategy multiplier gives a risk score
  clamped to [0, 100], a hard limit of 150 divided by the multiplier, and a
  verdict that the value is at most the hard limit.
- **Node handler** (`Server`, `server.dfy`). The `/api/safe-limit` handler
  of `server.ts`: its defaults for missing query parameters, its strategy
  table and its JavaScript-style fallback to 1.0.
- **Python service** (`Backend`, `backend.dfy`). From `main.py`: the upload
  file-type check, the posted map definition with its defaults, the
  extraction endpoint, and the service's own safe-limit calculator.
- **Agreement** (`BackendAgreement`, `agreement.dfy`). The two backends
  answer alike for every value and every non-empty strategy string. The
  exception is the JavaScript prototype keys listed under Left out.
- **Slider** (`SafeSlider`, `safe_slider.dfy`). The UI component's pure
  parts: the clamp to the hard limit, the colour bands and the initial
  state.

`Wrappers` (`wrappers.dfy`) holds the `Option` and `Result` types.

The decoder is written the way the source computes, as separate steps:

- `Unpack` plays the role of `struct.unpack` over the sliced bytes.
- `Scale` multiplies every cell by the factor.
- `Reshape` lays the row-major grid out.

`CellAt` is an independent reference: it reads cell `i` straight from the
image by absolute index. The lemmas connect the two.

An unknown strategy falls back to the multiplier 1.0 (`server.ts:53`,
`python_backend/main.py:74`). That is Diesel's entry, not the lowest-risk
entry of the table.

## Model

| member | source | states |
|---|---|---|
| `EcuParser.ParseDataType` | python_backend/BinaryECUParser.py:72-80 | Only the names `8bit`, `16bit_hi_lo` and `16bit_lo_hi` select a format. Every other name selects none, which is the ValueError path. |
| `EcuParser.ParseDataTypeName` | python_backend/BinaryECUParser.py:72-77 | Each of the three formats is selected by its own name. |
| `EcuParser.ByteCount` | python_backend/BinaryECUParser.py:70-78 | The byte count is `columns * rows` times the cell width: 1 for `8bit`, 2 for both 16-bit formats. |
| `EcuParser.DecodeCell` | python_backend/BinaryECUParser.py:74-78 | One unpacked item (codes b, B, h, H in either byte order) always lies in its type's range. |
| `EcuParser.Unpack` | python_backend/BinaryECUParser.py:88-90 | Unpacking the slice gives one item per cell width of bytes, and every item is in range. |
| `EcuParser.UnpackAt` | python_backend/BinaryECUParser.py:72-78 | Item i of the unpacked slice is the reference reading of cell i: `b[i]`, `b[2i]*256 + b[2i+1]` (hi_lo) or `b[2i] + 256*b[2i+1]` (lo_hi), read as two's complement when signed. |
| `EcuParser.CellAtInRange` | python_backend/BinaryECUParser.py:74-78 | Raw cells lie in [-128, 127] or [0, 255] for bytes, and in [-32768, 32767] or [0, 65535] for words. |
| `EcuParser.Scale` | python_backend/BinaryECUParser.py:92 | The vectorised multiply keeps the length. Element i is raw value i times the conversion factor. |
| `EcuParser.Encode` | python_backend/BinaryECUParser.py:90 | The inverse of the unpack, with one cell width of bytes per value. `UnpackEncode` proves the round trip. |
| `EcuParser.Reshape` | python_backend/BinaryECUParser.py:93 | The reshape yields exactly `rows` rows of `columns` cells each. |
| `EcuParser.ReshapeAt` | python_backend/BinaryECUParser.py:93 | Cell (r, c) of the reshaped grid is flat element `r*columns + c`. |
| `EcuParser.FlattenReshape` | python_backend/BinaryECUParser.py:93 | Reading the reshaped rows back in order gives the flat input, so the reshape loses and reorders nothing. |
| `EcuParser.ExtractMapData` | python_backend/BinaryECUParser.py:52-93 | A successful decode is a `rows × columns` grid. |
| `EcuParser.ExtractUnsupported` | python_backend/BinaryECUParser.py:79-80 | The result is the ValueError exactly when the name is none of the three, whatever the image and bounds. So this check comes before the bounds check. |
| `EcuParser.ExtractBounds` | python_backend/BinaryECUParser.py:82-86 | The IndexError occurs exactly when `start + byte_count > len(image)`, and it carries the byte count, start and file size. A map that ends on the last byte is read. |
| `EcuParser.ExtractCell` | python_backend/BinaryECUParser.py:82-93 | Cell (i, j) of a decoded map is the reference reading of image cell `i*columns + j` times the conversion factor. |
| `EcuParser.ExtractReadsOnlyItsRange` | python_backend/BinaryECUParser.py:88 | Two images that agree on `[start, start + byte_count)` decode to the same result, so only those bytes matter. |
| `EcuParser.ExtractRawCell` | python_backend/BinaryECUParser.py:74-92 | Every cell of a decoded map is a raw value in its type's range times the conversion factor. |
| `EcuParser.ExtractUnitFactorInRange` | python_backend/BinaryECUParser.py:74-78 | With factor 1.0, every decoded cell lies in its type's raw range. |
| `EcuParser.EncodeCell` | python_backend/BinaryECUParser.py:90 | Decoding the bytes of an in-range value gives that value back; one cell's bytes are the cell width long. |
| `EcuParser.UnpackEncode` | python_backend/BinaryECUParser.py:90 | Unpacking the encoding of a sequence of in-range raw values returns that sequence. |
| `EcuParser.ExtractEncoded` | python_backend/BinaryECUParser.py:52-93 | Round trip: a map encoded at any offset of an image decodes to the raw values times the factor, in row-major order. The flattened result is the scaled input. |
| `EcuParser.ExtractEncodedUnitFactor` | python_backend/BinaryECUParser.py:54-92 | With the default factor 1.0, an encoded map decodes to the raw values themselves. |
| `SafeLimit.RiskScore` | server.ts:55 | The risk score always lies in [0, 100]. |
| `SafeLimit.HardLimit` | server.ts:56 | The hard limit is positive, and the hard limit times the multiplier is 150. |
| `SafeLimit.Assess` | server.ts:55-62 | The response keeps the risk in [0, 100] and echoes the strategy. Its hard limit times the multiplier is 150, and `is_safe` holds exactly when the value is at most the hard limit. |
| `SafeLimit.RiskScoreMonotone` | server.ts:55 | For a fixed multiplier the risk score is non-decreasing in the value. |
| `SafeLimit.RiskScoreUnclamped` | server.ts:55 | Below saturation the risk score is exactly value × multiplier / 2. |
| `SafeLimit.RiskScoreSaturated` | server.ts:55 | When value × multiplier is at least 200, the risk score is exactly 100. |
| `SafeLimit.RiskScoreFloor` | server.ts:55 | When value × multiplier is at most 0, the risk score is exactly 0. |
| `SafeLimit.HardLimitDecreasing` | server.ts:56 | The hard limit is strictly decreasing in the multiplier. |
| `SafeLimit.AssessLimitIndependentOfValue` | server.ts:56 | The hard limit depends on the strategy only, not on the value. |
| `SafeLimit.AssessSafeDownwardClosed` | server.ts:62 | Every value at or below a safe value is safe. |
| `Server.CurrentValueOf` | server.ts:42 | A missing or unparseable value is 0. A parsed value is used as it is. |
| `Server.StrategyOf` | server.ts:43 | The strategy is never empty. A missing or empty one becomes "Manual", and any other is kept. |
| `Server.Multiplier` | server.ts:45-53 | The resolved multiplier is always positive, so the division by it is defined. |
| `Server.SafeLimitHandler` | server.ts:41-64 | The handler's risk is in [0, 100]. `is_safe` agrees with the defaulted value against the hard limit. The echoed strategy is never empty. |
| `Server.MultiplierTable` | server.ts:45-53 | The table is Heavy Duty 0.8, Gasoline 1.2, Diesel 1.0, Eco 0.5 and Manual 1.5. Every other name gets 1.0. |
| `Server.HardLimitTable` | server.ts:45-56 | The hard limits are Eco 300, Heavy Duty 187.5, Diesel 150, Gasoline 125 and Manual 100, for any value. |
| `Server.DefaultInputs` | server.ts:42-43 | A missing strategy is handled as "Manual". A missing or unparseable value is handled as 0. |
| `Server.EchoesStrategy` | server.ts:61 | A non-empty strategy string is echoed unchanged. |
| `Server.UnknownStrategyIsDiesel` | server.ts:49-53 | An unknown strategy name gets Diesel's risk, limit and verdict. |
| `Server.RiskMonotone` | server.ts:55 | For any fixed strategy parameter the handler's risk score is non-decreasing in the value. |
| `Server.Scenarios` | server.ts:53-62 | Heavy Duty at 100 gives (40, 187.5, safe). Eco at 200 gives (50, 300, safe). UnknownXYZ at 160 gives (80, 150, not safe). |
| `Backend.UploadEcuFile` | python_backend/main.py:21-37 | A refused upload is the 400 "Invalid file type" error. An accepted one reports the file name and the content size. |
| `Backend.EndsWithAny` | python_backend/main.py:23 | A tuple `endswith` that holds names a suffix of the tuple that matches. The converse is `EndsWithAnyIff`. |
| `Backend.EndsWithAnyIff` | python_backend/main.py:23 | `endswith` on a tuple holds exactly when some suffix in the tuple matches. |
| `Backend.UploadAcceptedIff` | python_backend/main.py:23-24 | An upload is accepted exactly when the name's last four characters are `.bin`, `.ori`, `.mod` or `.hex`. The comparison is case-sensitive. |
| `Backend.UploadAcceptedExamples` | python_backend/main.py:23-24 | `stage1.bin` and `.ori` are accepted. |
| `Backend.UploadRefusedExamples` | python_backend/main.py:23-24 | `FIRMWARE.BIN` and `dump.bin.txt` are refused. |
| `Backend.MakeMapDefinition` | python_backend/main.py:12-19 | Given fields are kept. A missing data type becomes `16bit_hi_lo`, a missing sign flag becomes unsigned, and a missing factor becomes 1.0. |
| `Backend.ExtractMetadata` | python_backend/main.py:39-56 | The extraction endpoint returns as many rows as the definition declares. |
| `Backend.DefaultDefinitionReadsBigEndianWords` | python_backend/main.py:12-19 | A definition with the defaults (`16bit_hi_lo`, unsigned, factor 1.0) decodes cell (i, j) as the unscaled word `b[s+2k]*256 + b[s+2k+1]`, with k = i*columns + j. |
| `Backend.UnknownDataTypeRefused` | python_backend/main.py:45-55 | A definition with an unknown data type yields the decoder's ValueError. |
| `Backend.Multiplier` | python_backend/main.py:66-74 | The looked-up multiplier is always positive. |
| `Backend.CalculateSafeLimit` | python_backend/main.py:60-84 | The risk is in [0, 100] and the strategy is echoed exactly. `is_safe` holds exactly when the value is at most the hard limit. |
| `Backend.SafeLimitConsistent` | python_backend/main.py:76-83 | The risk is in [0, 100], `hard_limit = 150 / m`, and `is_safe` equals `current_value <= hard_limit`. |
| `Backend.UnknownStrategyDefault` | python_backend/main.py:74 | A name outside the table gets 1.0, Diesel's multiplier. |
| `BackendAgreement.TablesAgree` | python_backend/main.py:66-72 | The Python table and the server.ts table are the same map. |
| `BackendAgreement.MultipliersAgree` | python_backend/main.py:74 | The lookup with a default and the JavaScript falsy fallback resolve every name to the same multiplier. |
| `BackendAgreement.BackendsAgree` | python_backend/main.py:60-84 | For every value and non-empty strategy, the Python response equals the server.ts response on all four fields. |
| `BackendAgreement.EmptyStrategyDiffers` | python_backend/main.py:61-74 | For an empty strategy string the backends differ. Python uses 1.0 (limit 150). server.ts substitutes "Manual" (limit 100). |
| `SafeSlider.HandleSliderChange` | src/components/SafeSlider.tsx:50-58 | The value handed to `onChange` is never above the hard limit and never above the new position. It is one of the two. |
| `SafeSlider.ClampKeepsSafeValues` | src/components/SafeSlider.tsx:53-54 | A position at or under the hard limit is passed through unchanged, and clamping is idempotent. |
| `SafeSlider.ClampMonotone` | src/components/SafeSlider.tsx:50-58 | The clamped value is non-decreasing in the slider position. |
| `SafeSlider.InitialState` | src/components/SafeSlider.tsx:18-21 | The state before any answer has risk 0 and is safe. Its hard limit is the given maximum, or 200 when none is given. |
| `SafeSlider.SliderColour` | src/components/SafeSlider.tsx:43-48 | The bar is red exactly when unsafe. Emerald needs a risk below 30, and orange a risk of at least 70. |
| `SafeSlider.SliderClassNames` | src/components/SafeSlider.tsx:43-48 | The class string returned for each band, with its exact condition. |
| `SafeSlider.ColourBands` | src/components/SafeSlider.tsx:43-48 | The bar is red exactly when unsafe, whatever the risk. When safe it is emerald below 30, yellow from 30 to below 70, and orange from 70. |
| `SafeSlider.InitialStateColour` | src/components/SafeSlider.tsx:18-21 | The initial state (risk 0, limit = max with default 200, safe) shows emerald and clamps to the maximum. |
| `SafeSlider.ClampedValueIsSafe` | src/components/SafeSlider.tsx:26-58 | After the server has answered for a strategy, every value the slider passes on is judged safe by the server for that strategy. |
| `SafeSlider.RedExactlyOverLimit` | src/components/SafeSlider.tsx:29-44 | After the server's answer the bar is red exactly when the value is above the hard limit. |

## Left out

- File input: `read_binary` and `load_definitions_from_json` (python_backend/BinaryECUParser.py:16-50) only open files. The image is a parameter.
- The generative-AI calls (python_backend/ai_handler.py, server.ts:66-88) are network calls to an external service. python_backend/ai_handler.py is not part of this model.
- Framework plumbing is left out: express, multer and vite setup, FastAPI routing, reading the upload body, and the missing-file answer of server.ts:15-18. The extraction endpoint returns the decoder's error itself, not an HTTP 400 wrapping of its message. A missing Python query parameter is refused by the framework before `calculate_safe_limit` runs.
- The checksum is a constant `true` placeholder (python_backend/main.py:30, server.ts:24). The upload answer carries it with no algorithm behind it.
- The mock `/api/extract` of server.ts:28-39 returns a constant grid.
- Floating point: the scaling, the numpy float conversion and the safe-limit arithmetic are exact `real` arithmetic. IEEE rounding, NaN and Infinity are not modelled.
- JavaScript quirks: partial parses (`"12abc"` gives 12) become a parsed number or None. Prototype keys such as `toString` are not table entries here, because the table is a finite map over the five names.
- Negative `start_address`, `rows` or `columns` follow Python's negative-slice and struct-count rules. The model takes these as `nat`.
- The input image is a value: the model cannot change it. That the bytes are not modified holds by construction and is not a separate lemma.
- The slider's debounced fetch and state setters (src/components/SafeSlider.tsx:23-40) are timing and I/O. `StateAfter` stands for the state they leave behind. The bar-width percentage (line 75) is rendering arithmetic.
- src/components/Sidebar.tsx and src/App.tsx are pure rendering and are not part of this model.
