# Differential codec, PAM pipeline and Battleship boards, in Dafny

This project models three pieces of sequential logic from a software-defined-radio
project: a voice chat and a two-player Battleship game whose shots travel over the air.

- **The differential 8-bit codec.** It appears as `compression`/`decompression` in
  `voice_chat/compression.py` and again in `voice_chat/test.py`.
  - The encoder sends the first 8-character binary sample verbatim.
  - It then sends one record per later sample: a sign character and the clipped delta
    (at most 8) in binary with at least three digits.
  - The decoder reads a record every four characters and does not wrap its running value.
  - Modules: `Compression`, and `ScriptCompression` for the copy with the `loss` flag.
  - They rest on `Numerals`, which models Python's `int(s, base)`, `bin`, `str` and the
    `'0{w}b'` format.
- **The pulse-amplitude-modulation (PAM) pipeline** of `voice_chat/PAM.py` and
  `battleship/PAM.py`. It runs in five steps:
  - build N odd-symmetric levels;
  - map bit quarters (voice) or a grid cell (game) to levels;
  - repeat each level K times;
  - average K-sample blocks;
  - detect the nearest level, then look its index up again.

  The code shared by the two files is module `Pam`. The game's own operations are in
  `GridPam`. Levels are exact reals `(2i - (N-1)) * d` for a spacing `d > 0`. Received
  samples are the real parts of the complex samples.
- **The Battleship board state.**
  - Boards are 10 x 10 arrays updated in place: the ocean board holds ships
    (`OceanBoards`), the target board holds pegs (`TargetBoards`).
  - Ships carry a status entry per cell (`Ships`).
  - A player owns one board of each kind (`Players`).
  - `Game` models `convertLoc` and the shot resolution of `turn`.

Each loop of the source is a `method` proved equal to a specification function. The
properties are proved about those functions:
- round trips: decode after encode, detect on levels, bits to levels to bits, cell to
  symbols to cell, cell name to cell;
- the shape of every output, and for the boards the whole new state after each
  operation;
- the cases where the code raises.

The codec loses a clipped jump of 8 twice over: `["00000000", "11111111"]` decodes to
`["00000000", "00000100"]`. The clipped record is `"11000"`, and the decoder reads only
`"100"` as the magnitude (see `Compression.ClippedJumpDecoding`).

## Model

| member | source | states |
|---|---|---|
| Numerals.ParseInt | voice_chat/compression.py:131 | `int(s, base)` on a non-empty digit string is its value; on the empty string it fails |
| Numerals.ParseSigned | voice_chat/compression.py:131 | `int(s, base)` succeeds exactly on digits with an optional `+`/`-` sign, and a signed string is its digits' value, negated after `-` |
| Numerals.Digits | voice_chat/compression.py:140 | `bin(n)[2:]` and `str(n)` are non-empty strings of digits of the base |
| Numerals.DigitsLeadingZero | voice_chat/compression.py:140 | those digits start with `0` only for 0 |
| Numerals.FormatBin | voice_chat/compression.py:174 | `format(v, '0{w}b')` has at least `w` characters and `int(_, 2)` reads back `v`, negative values included |
| Numerals.NegativeParse | voice_chat/compression.py:174 | a `-` before zero-padded binary digits of `m` is read back as `-m` |
| Numerals.DigitsValueOfDigits | battleship/game.py:32 | reading back the digits written for `n` gives `n` |
| Numerals.ParsePadded | voice_chat/compression.py:140 | a zero-padded binary numeral parses back to its value |
| Numerals.FormatOfBinaryString | voice_chat/compression.py:174 | formatting the value of a binary string at its own width gives that string back |
| Compression.Clip | voice_chat/compression.py:136-137 | the sent delta lies in [-8, 8]; it equals the delta inside that range and is 8 or -8 beyond it |
| Compression.Mask | voice_chat/compression.py:144 | `& 0xFF` yields 0..255 and is the identity on 0..255 |
| Compression.Encode | voice_chat/compression.py:119-146 | an empty list fails at `bits[0]`; a successful encoding starts with `bits[0]` verbatim |
| Compression.Decode | voice_chat/compression.py:149-179 | a successful decoding starts with the first 8 characters unchanged |
| Compression.Compression | voice_chat/compression.py:119-146 | the encoder loop returns exactly `Encode(bits)`, including its failures |
| Compression.EmitRecord | voice_chat/compression.py:139-142 | for a clipped delta, the record is the sign character (`'0'` exactly for a negative delta) followed by the magnitude, which parses back; it has 4 characters, or 5 when the magnitude is 8 |
| Compression.Decompression | voice_chat/compression.py:149-179 | the decoder loop returns exactly `Decode(encoded)`, including its failures; `decompression` in voice_chat/test.py:148-178 is the same text |
| Compression.ApplyRecord | voice_chat/compression.py:173-178 | sign "0" subtracts the magnitude and any other sign adds it; the sample has at least 8 characters and `int(sample, 2)` reads back the new running value, negative or above 255 included |
| Compression.RunningValue | voice_chat/compression.py:133-144 | the running value stays in 0..255, moves toward the input by at most 8 without overshooting, and equals the input exactly when the delta is at most 8 |
| Compression.RecordShape | voice_chat/compression.py:139-142 | a record has 4 characters, or 5 when the magnitude is 8; its sign character is "0" exactly for negative deltas; its tail parses to the magnitude |
| Compression.MagnitudeShape | voice_chat/compression.py:140-142 | the padded magnitude has 3 digits, or 4 (`"1000"`) for 8, and parses back |
| Compression.EncodedLength | voice_chat/compression.py:133-144 | the records take 4 characters per sample plus one per magnitude-8 record |
| Compression.RoundTrip | voice_chat/compression.py:119-179 | for 8-bit samples whose consecutive values differ by at most 7, the encoding has length `8 + 4(n-1)` and decodes to the input |
| Compression.TailDecoding | voice_chat/compression.py:164-171 | a lone sign character ends decoding; a 2- or 3-character tail is still decoded as a short magnitude |
| Compression.DecodeSeed | voice_chat/compression.py:159-162 | decoding starts from the first 8 characters and their value |
| Compression.RecordOfEight | voice_chat/compression.py:142 | a clipped delta of 8 is written as the 5-character record `"11000"` |
| Compression.EncodePair | voice_chat/compression.py:130-144 | two samples encode to the first and the record of the clipped delta |
| Compression.ClippedJumpEncoding | voice_chat/compression.py:119-146 | `["00000000", "11111111"]` encodes to `"0000000011000"` |
| Compression.ClippedJumpDecoding | voice_chat/compression.py:149-179 | `"0000000011000"` decodes to `["00000000", "00000100"]` |
| Compression.DecoderDoesNotWrap | voice_chat/compression.py:173-178 | after 255, a "+1" record decodes to the 9-digit string of 256 |
| ScriptCompression.ScriptEncoder | voice_chat/test.py:119-145 | the encoder with the `loss` flag returns exactly `Compression.Encode(bits)`; the flag is set exactly when the input has some clipped delta |
| ScriptCompression.ClipDelta | voice_chat/test.py:132-136 | the delta is clipped, and the flag is raised exactly when the raw delta exceeds 8 in magnitude |
| ScriptCompression.LossFromBytes | voice_chat/test.py:129-143 | the flag computed from a running value is set exactly when some consecutive pair of samples jumps by more than 8 |
| ScriptCompression.LossFlagMeaning | voice_chat/test.py:129-136 | for 8-bit samples, the flag is set exactly when two consecutive samples differ by more than 8 |
| ScriptCompression.ScriptCheckHolds | voice_chat/test.py:182-186 | with consecutive deltas of at most 7, nothing is clipped and the script's `decomp == bit_array` holds |
| ScriptCompression.LossFlagMissesEight | voice_chat/test.py:134-141 | a jump of exactly 8 leaves the flag unset, yet the 5-character record does not decode to the input |
| Pam.Constellation | voice_chat/PAM.py:18-28 | N <= 0 raises; otherwise N levels, level i being `(2i - (N-1)) * d`; battleship/PAM.py:19-29 is the same code |
| Pam.LevelsIncrease | voice_chat/PAM.py:22 | the levels strictly increase, hence are distinct |
| Pam.LevelsSymmetric | voice_chat/PAM.py:22 | level `N-1-i` is minus level `i` |
| Pam.LevelPower | voice_chat/PAM.py:24 | three times the sum of squared unscaled levels is `N(N^2-1)` |
| Pam.ExactDivision | voice_chat/PAM.py:24 | the floor division by N is exact exactly when 3 does not divide N |
| Pam.UnitPower | voice_chat/PAM.py:22-27 | with `d = sqrt(1/s)`, the mean power is 1 exactly when 3 does not divide N |
| Pam.Slice | voice_chat/PAM.py:46-49 | Python slicing within bounds is the sub-sequence |
| Pam.Index | voice_chat/PAM.py:51-54 | numpy indexing succeeds exactly for -N..N-1 and is the element for 0..N-1 |
| Pam.DigitalModulation | voice_chat/PAM.py:43-56 | the loop returns exactly `Modulation(bits, N, d)` |
| Pam.ModulationLength | voice_chat/PAM.py:43-56 | a successful modulation has exactly four levels per input string |
| Pam.ModulationBlocks | voice_chat/PAM.py:45-54 | the levels of input string k are at positions 4k..4k+3, in the order of its quarters |
| Pam.ModulatedAreLevels | voice_chat/PAM.py:51-54 | every symbol produced is a constellation level |
| Pam.CreateMessage | voice_chat/PAM.py:66 | a negative repeat count raises, any other succeeds |
| Pam.CreateMessageShape | voice_chat/PAM.py:66 | the square wave has `len(symbols) * K` samples and sample i is `symbols[i div K]`; battleship/PAM.py:49 is the same code |
| Pam.RepeatLength | voice_chat/PAM.py:66 | repeating K times multiplies the length by K |
| Pam.RepeatElement | voice_chat/PAM.py:66 | element i of the repetition is `symbols[i div K]` |
| Pam.DecodeMessage | voice_chat/PAM.py:80-86 | the loop returns exactly `Decoded(m, K)` (an error where the loop would not end); battleship/PAM.py:60-67 is the same loop |
| Pam.DecodedLength | voice_chat/PAM.py:80-86 | there are `ceil(len(m) / K)` block means |
| Pam.BlockMeanElement | voice_chat/PAM.py:82-84 | mean j is the average of samples `jK .. min(jK+K, len(m))`, the last block taking the leftover |
| Pam.DecodeRepeat | voice_chat/PAM.py:66-86 | averaging K-sample blocks undoes K-fold repetition |
| Pam.DecodeCreate | voice_chat/PAM.py:66-86 | `decode_message(create_message(s, K), K) == s` for K >= 1 |
| Pam.NearestIn | voice_chat/PAM.py:106 | the argmin over the first k levels is one of them |
| Pam.NearestIsArgmin | voice_chat/PAM.py:105-107 | the chosen level is at least as close as every level, and strictly closer than every earlier one |
| Pam.NearestOfLevel | voice_chat/PAM.py:105-107 | a level's nearest level is itself |
| Pam.DetectPamSymbol | voice_chat/PAM.py:101-108 | the loop returns exactly `Detected(N, d, received)`; battleship/PAM.py:82-89 is the same loop |
| Pam.DetectShape | voice_chat/PAM.py:103-107 | detection keeps the length and maps each sample to its nearest level |
| Pam.DetectFixed | voice_chat/PAM.py:103-107 | detection leaves a sequence of levels unchanged |
| Pam.IndexOf | voice_chat/PAM.py:129 | `np.where` finds the first index holding the symbol, and fails exactly when it is no level |
| Pam.IndexOfLevel | voice_chat/PAM.py:129 | on increasing levels, level i is found at index i |
| Pam.SymbolToBits | voice_chat/PAM.py:120-137 | the loop returns exactly `SymbolBits(N, d, symbols)` |
| Pam.GroupsCount | voice_chat/PAM.py:126-136 | one string per complete group of four symbols; a partial group is dropped |
| Pam.GroupsWidth | voice_chat/PAM.py:126-136 | with L-character codes, every string has 4L characters |
| Pam.CodesOfShape | voice_chat/PAM.py:129-133 | the codes fail exactly when some symbol is no level; otherwise there is one code per symbol |
| Pam.SymbolBitsWidth | voice_chat/PAM.py:120-137 | for `N = 2^L`, there are `len/4` strings of 4L characters |
| Pam.Log2OfPower | voice_chat/PAM.py:120 | `int(log2(2^L))` is L |
| Pam.ModulationRoundTrip | voice_chat/PAM.py:31-137 | for `N = 2^L` and 4L-character binary strings, `symbol_to_bits(digital_modulation(bits))` gives `bits` |
| Pam.VoicePipeline | voice_chat/PAM.py:43-137 | the noise-free voice pipeline (modulate, repeat, average, detect, to bits) returns its input |
| GridPam.CreateSymbol | battleship/PAM.py:32-41 | succeeds exactly for -16 <= r, c < 16, and is the pair of levels `r mod 16` and `c mod 16` of the 16-level constellation |
| GridPam.Location | battleship/PAM.py:91-104 | fails with fewer than two symbols; a result is two indices in 0..15 whose levels are the first two symbols |
| GridPam.CellSymbol | battleship/PAM.py:40-41 | the pair `[cons[r], cons[c]]`, raising exactly when an index is outside -16..15 |
| GridPam.LookUp | battleship/PAM.py:101-103 | the first index holding symbol i; it raises when there is no symbol i or it is no level |
| GridPam.LocationIn | battleship/PAM.py:98-104 | the pair of indices whose levels are the two symbols; it fails exactly when one of them is no level |
| GridPam.GetLoc | battleship/PAM.py:98-104 | the loop filling `res` returns exactly `Location(d, symbols)` |
| GridPam.LocationOfCell | battleship/PAM.py:98-104 | on 16 increasing levels, looking up the symbols of (r, c) gives (r mod 16, c mod 16) |
| GridPam.LocationOfSymbol | battleship/PAM.py:40-104 | `get_loc(create_symbol(r, c)) == [r mod 16, c mod 16]` for -16 <= r, c < 16 |
| GridPam.GridMessage | battleship/PAM.py:49 | the square wave of a cell is K copies of the row level, then K copies of the column level |
| GridPam.GridPipeline | battleship/PAM.py:40-104 | the noise-free game pipeline recovers the cell for 0 <= r, c < 16 |
| TargetBoards.TargetBoard.constructor | battleship/targetboard.py:20-21 | a new target board is 10 x 10 and holds no peg |
| TargetBoards.TargetBoard.MarkHit | battleship/targetboard.py:24-25 | a red peg at (r, c), which then is a hit and not empty; every other cell unchanged |
| TargetBoards.TargetBoard.MarkMiss | battleship/targetboard.py:28-29 | a white peg at (r, c), which then is neither a hit nor empty; every other cell unchanged |
| TargetBoards.TargetBoard.IsHit | battleship/targetboard.py:32-33 | a hit cell is never empty |
| TargetBoards.TargetBoard.IsEmpty | battleship/targetboard.py:36-37 | an empty cell holds neither peg; on a board with no pegs every cell is empty |
| Ships.Marked | battleship/display.py:109 | a hit at an offset inside the ship sets that entry to a red peg and keeps the others |
| Ships.Ship.constructor | battleship/game.py:14 | a new ship has its type and size and no pegs; its placement is an assumed default, vertical at (0, 0), until `placeShip` sets it |
| Ships.Ship.MarkHitAt | battleship/display.py:109 | the entry at offset `(r+c) - (loc_r+loc_c)` becomes a red peg; placement unchanged |
| Ships.MarkedTwice | battleship/game.py:102-104 | hitting a cell twice is the same as hitting it once |
| Ships.SinkingHit | battleship/game.py:83 | a hit sinks the ship exactly when every other cell was already hit; a sunk ship stays sunk |
| Ships.FreshShipAfloat | battleship/game.py:14 | a new ship of size at least 1 is not sunk |
| OceanBoards.OceanBoard.constructor | battleship/oceanboard.py:11-13 | a new ocean board is 10 x 10, empty, and has no ships |
| OceanBoards.OceanBoard.PlaceShip | battleship/oceanboard.py:22-66 | True exactly when the start is on the board and, for 'h' or 'v', every covered cell is on the board and empty. A placement fills exactly the covered cells, sets `loc` and `horizontal`, and appends the ship once. A refusal, or another orientation, changes nothing. An occupied cell is never overwritten, and every ship on a cell stays registered in `ships` |
| OceanBoards.OceanBoard.ColumnFree | battleship/oceanboard.py:34-38 | True exactly when the vertical span fits and is empty |
| OceanBoards.OceanBoard.RowFree | battleship/oceanboard.py:50-54 | True exactly when the horizontal span fits and is empty |
| OceanBoards.OceanBoard.FillColumn | battleship/oceanboard.py:45-46 | cells `(r..r+size-1, c)` hold the ship; all others unchanged |
| OceanBoards.OceanBoard.FillRow | battleship/oceanboard.py:61-62 | cells `(r, c..c+size-1)` hold the ship; all others unchanged |
| OceanBoards.OceanBoard.AllShipsSunk | battleship/oceanboard.py:69-73 | True exactly when every ship in `ships` is sunk (so True with no ships) |
| Players.ParseLoc | battleship/battleshipplayer.py:46-51 | a location parses exactly when the text after its first character is an integer; row is the letter's distance from 'a', column the number less one |
| Players.ParseCellName | battleship/battleshipplayer.py:47-50 | the name letter-then-number of (r, c) parses back to (r, c) |
| Players.Player.constructor | battleship/battleshipplayer.py:19-25 | score 0, the given name, two fresh empty boards |
| Players.Player.PlaceShip | battleship/battleshipplayer.py:45-55 | False with nothing changed when the location does not parse or the orientation is not 'h'/'v'; otherwise the ocean's verdict and effects at the parsed cell |
| Players.Player.ShipAt | battleship/battleshipplayer.py:57-61 | None on an empty cell, otherwise the ship's type |
| Players.Player.ShotAt | battleship/battleshipplayer.py:70-80 | on an empty cell (False, False, None) and nothing changes; on a ship, the ship records the hit, keeps its placement, and the answer is (True, sunk after the hit, its type) |
| Players.Player.MarkTargetHit | battleship/battleshipplayer.py:82-83 | a red peg on the player's target board at (r, c) only |
| Players.Player.MarkTargetMiss | battleship/battleshipplayer.py:85-86 | a white peg on the player's target board at (r, c) only |
| Players.Player.AllShipsSunk | battleship/battleshipplayer.py:88-89 | True exactly when every ship on the player's ocean is sunk |
| Players.Player.ResetUnit | battleship/battleshipplayer.py:95-97 | two fresh empty boards; name and score unchanged |
| Players.Player.UpdateScore | battleship/battleshipplayer.py:102-103 | the score grows by exactly `num`; nothing else changes |
| Game.ConvertLoc | battleship/game.py:30-42 | None exactly when the number does not parse, is outside 1..10, or the letter is outside 'a'..'j'; any result is on the board and is the letter's row and the number's column |
| Game.ConvertCellName | battleship/game.py:30-42 | `convertLoc(chr(ord('a')+r) + str(c+1)) == (r, c)` for every cell |
| Game.ConvertAgreesWithPlacement | battleship/game.py:30-42 | a shot location names the same cell as a placement location, and every on-board placement location is accepted as a shot |
| Game.Fire | battleship/game.py:96-111 | the answer is a miss over open water and otherwise a hit carrying `isSunk()`; the cell gets a white or red peg and no other peg changes; the ship on the cell records the hit and keeps its placement (`loc`, `horizontal`), and no other ship changes; pegs keep agreeing with the ocean, sunk ships stay sunk |
| Game.ResolveShot | battleship/game.py:62-84 | a cell already pegged is refused with nothing changed; any other cell is fired on with exactly `Fire`'s effects |
| Game.TakeBonus | battleship/game.py:86-111 | a bonus shot is fired exactly when the first shot sank a ship and the shooter took it; it skips the already-pegged check, so the bonus cell is re-marked (white over water, red over a ship) and a ship there records the hit again; its answer carries `isSunk()`; no other peg or ship changes |
| Game.Shoot | battleship/game.py:62-111 | the called shot then the bonus shot leave exactly the state of `Resolved`: the answers, the peg on each cell fired on, every other peg unchanged, and each ship's status with the shots that landed on it recorded in order, its placement (`loc`, `horizontal`) unchanged |
| Game.Play | battleship/game.py:62-113 | the state of `Resolved` after the shots, and the answer True exactly when either fleet is all sunk |
| Game.Turn | battleship/game.py:45-113 | player 1 shoots when `playerNumber` is 0, player 2 otherwise; the shooter's target board and the opponent's ships end in the state of `Resolved`; the answer is True exactly when either player's ships are all sunk |

## Left out

- Input, output and the display: `input()` loops, `print`, `clearScreen`, the terminal
  board drawing, `initPlayer`, `playBattleship`, `main`, and the script code around the
  codec. `Game.Turn` takes the called cell and the bonus-shot choice as parameters.
  Only cells that `convertLoc` accepts reach it, as the source's input loop ensures.
- Audio capture, playback, radio transmission, filters, quantisation, QAM and the noise
  block: these are I/O, floating-point signal processing or foreign libraries.
- Pam.Constellation: the spacing `d = sqrt(1/s)` is a parameter `d > 0`, because
  square roots and floating-point rounding are not modelled. `Pam.UnitPower` states the
  unit mean power for the exact `d`. For N = 1, `s` is 0 and numpy yields NaN levels;
  the model does not capture this.
- Received samples are complex in the source; the model takes their real parts, since
  detection reads only the real part and averaging commutes with it.
- Pam.Decoded: for K < 1 on a non-empty message the Python loop never ends; the model
  returns an error there instead of diverging.
- Pam.Log2Floor: `int(np.log2(N))` is modelled as the exact floor of the base-2
  logarithm; float rounding of `log2` is not modelled.
- `decode_message` in `battleship/PAM.py` computes `L = np.log2(N)` and never uses it;
  the model drops it.
- Numerals.ParseInt: Python's `int()` also accepts surrounding whitespace, underscores
  between digits and base prefixes; the model accepts an optional sign and ASCII digits
  only.
- `Ship` and `Board` are not part of this model.
  - A ship is its type name, size, placement and per-cell status.
  - Ships.Ship.IsSunk: taken as "every status entry is a red peg", since `isSunk` is
    not shown. Ships.SinkingHit, Ships.FreshShipAfloat, and the `StaySunk` and
    `isSunk()` clauses of Game.Fire, Game.ResolveShot, Game.TakeBonus, Game.Shoot,
    Game.Play and Game.Turn hold under this reading only.
  - Ships.Ship.MarkHitAt: an offset outside the ship changes nothing, where the unshown
    code might raise.
  - Boards are fixed at 10 x 10, as every board the game builds is. The `r < 0` and
    `c < 0` tests at the head of each orientation branch of `placeShip`
    (battleship/oceanboard.py:34, 50) are modelled but never fire: its first test
    (battleship/oceanboard.py:30) has already answered False for any start off the
    board.
- ScriptCompression.ScriptEncoder returns the `loss` flag, which the source keeps local,
  so that its meaning can be stated; the encoded string is unaffected.
