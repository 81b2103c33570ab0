# ElevenLabs voice-spec parsing and settings merge

This project models the core of `podcastfy/tts/providers/elevenlabs.py`, the
ElevenLabs text-to-speech provider of podcastfy, in Dafny and proves
properties of the model. The core has three parts:

- `parse_voice` turns a voice spec such as `Name(k1=v1,k2=v2)` into a voice
  name and a dictionary of raw string parameters. It uses only Python string
  operations: `replace(' ', '')`, `replace(')', '')`, `split('(')`,
  `split(',')` and `split('=')`. A segment without `=` makes `v[1]` raise
  `IndexError`.
- `generate_audio` parses the spec and looks up the voice's settings with
  `get_voice`. It then overwrites, in place, each of the five settings
  (`stability`, `similarity_boost`, `style`, `use_speaker_boost`, `speed`)
  whose key is in the parsed dictionary, and returns `b''`.
- `get_supported_tags` returns a constant list of SSML tags.

Layout:

- `PyStr.dfy` (module `PyStr`) states the Python `str` operations the parser
  uses, over `seq<char>`:
  - `RemoveAll` is `s.replace(c, '')`.
  - `Split` is `s.split(c)`.
  - `Join` is `sep.join(pieces)`.
  - `Before` and `After` are the two ends of `s.partition(c)`.

  The module proves the properties the parser relies on. `Split` and `Join`
  are inverse to each other, and `Split` has one piece per separator plus
  one. No piece contains the separator.
- `ElevenLabs.dfy` (module `ElevenLabs`) holds the rest:
  - `ParseVoice` is the imperative parser. It reassigns the cleaned text
    step by step, then fills the dictionary in a `while` loop. It is proved
    equal to the function `ParseSpec`, and the lemmas about `ParseSpec`,
    `Segments` and `Fill` state what the parser promises.
  - The class `VoiceSettings` models the mutable settings object. Its method
    `ApplyOverrides` performs the five guarded assignments. The function
    `WithOverrides` is its specification.
  - `GenerateAudio` ties parsing, lookup and merge together.
  - `SupportedTags` is `get_supported_tags`.

The provider lookup `get_voice` is a network call. It is a parameter
`getVoice: string -> Fields<D>` that returns the provider's defaults for a
voice id. Default values have an abstract type `D`. A setting therefore holds
either `ProviderDefault(d)` or `Override(text)`, the raw string taken from
the spec; no conversion takes place. `generate_audio` prints the request it
would send (line 46). The model returns that request as a `Request` value
next to the empty audio, instead of printing it. In the `Request` the voice
is given by the id it was looked up with, not by the voice object that
`get_voice` returns.

### Behaviour of the code worth knowing

- Parameters are separated by `,` (line 66). A `|` is an ordinary
  character: `ParsePipeIsNoSeparator` shows that `name(k1=v1|k2=v2)` yields
  the single entry `k1 -> "v1|k2"`.
- Only the space character is removed (line 59). Tabs and newlines stay.
- Every `)` is removed, wherever it stands (line 60).
- Values stay raw strings, and keys other than the five settings are kept
  in the dictionary.
- A spec without `(` is treated as one `key=value` segment. So a bare name
  such as `Alice` raises `IndexError` (`ParseBareNameFails`), and `a=b`
  parses to `("a=b", {"a": "b"})` (`ParseBarePair`).
- An empty list `Name()` raises `IndexError` (`ParseEmptyListFails`).
- Text after a second `(` is dropped.
- `generate_audio` returns `b''` and does not synthesize anything; the
  synthesis call is commented out.

## Model

| member | source | states |
|---|---|---|
| `PyStr.RemoveAll` | podcastfy/tts/providers/elevenlabs.py:59-60 | `replace(c, '')` leaves no `c` in the result |
| `PyStr.RemoveAllKeeps` | podcastfy/tts/providers/elevenlabs.py:59-60 | deleting `c` keeps exactly the other characters that occur |
| `PyStr.RemoveAllCounts` | podcastfy/tts/providers/elevenlabs.py:59-60 | the result keeps every other character as often as it occurred and drops every `c` |
| `PyStr.RemoveAllIsJoinOfSplit` | podcastfy/tts/providers/elevenlabs.py:59-61 | `s.replace(c, '') == ''.join(s.split(c))`: deletion keeps the order of the rest |
| `PyStr.RemoveAllCommutes` | podcastfy/tts/providers/elevenlabs.py:59-60 | deleting spaces and deleting `)` can happen in either order |
| `PyStr.RemoveAllAbsent` | podcastfy/tts/providers/elevenlabs.py:59-60 | deleting a character that does not occur changes nothing |
| `PyStr.Before` | podcastfy/tts/providers/elevenlabs.py:61-63 | the text before the first `c` is a prefix of the input that has no `c`, followed by `c` or by the end |
| `PyStr.After` | podcastfy/tts/providers/elevenlabs.py:61-66 | the input is the text before the first `c`, then `c`, then the result |
| `PyStr.Split` | podcastfy/tts/providers/elevenlabs.py:61-63 | `split` gives at least one piece, and the first is the text before the first separator (`voice[0]`) |
| `PyStr.SplitCount` | podcastfy/tts/providers/elevenlabs.py:61-70 | `n` separators give `n + 1` pieces, empty pieces included |
| `PyStr.SplitJoin` | podcastfy/tts/providers/elevenlabs.py:61-70 | joining the pieces with the separator gives back the input |
| `PyStr.JoinSplit` | podcastfy/tts/providers/elevenlabs.py:61-70 | separator-free pieces are exactly what splitting their join gives back |
| `PyStr.SplitPiecesExcludeSeparator` | podcastfy/tts/providers/elevenlabs.py:66-71 | no piece contains the separator |
| `PyStr.SplitPiecesExclude` | podcastfy/tts/providers/elevenlabs.py:59-71 | a character missing from the input is missing from every piece |
| `PyStr.SplitSecond` | podcastfy/tts/providers/elevenlabs.py:70-71 | with a separator present, `v[1]` exists and is the text between the first and second separator |
| `ElevenLabs.Clean` | podcastfy/tts/providers/elevenlabs.py:59-60 | the cleaned spec contains no space and no `)` |
| `ElevenLabs.Segments` | podcastfy/tts/providers/elevenlabs.py:61-66 | the loop's segments are the text between the first and second `(` split at `,`; with no `(` they are the one cleaned spec |
| `ElevenLabs.Key` | podcastfy/tts/providers/elevenlabs.py:70-71 | a segment's key is `v[0]` of its split at `=`, a prefix of the segment with no `=` |
| `ElevenLabs.Value` | podcastfy/tts/providers/elevenlabs.py:70-71 | for a segment with `=`, `v[1]` exists and the value is `v[1]`, which holds no `=` |
| `ElevenLabs.Fill` | podcastfy/tts/providers/elevenlabs.py:68-71 | the dictionary-filling loop; it succeeds only if every segment holds `=`; its meaning is fixed by `FillFails`, `FillKeys` and `FillLastWins` |
| `ElevenLabs.ParseSpec` | podcastfy/tts/providers/elevenlabs.py:57-72 | on success the name is the cleaned spec's text before its first `(` |
| `ElevenLabs.ParseVoice` | podcastfy/tts/providers/elevenlabs.py:57-72 | the step-by-step parser with its dictionary-filling loop returns exactly `ParseSpec(voice)`, including the `IndexError` |
| `ElevenLabs.FillStep` | podcastfy/tts/providers/elevenlabs.py:69-71 | one loop turn stores `v[1]` under `v[0]`, or fails when the segment has fewer than two pieces |
| `ElevenLabs.FillPrefixFails` | podcastfy/tts/providers/elevenlabs.py:68-71 | once a segment raises, the whole parse fails, with no partial dictionary |
| `ElevenLabs.SplitEqualsPieces` | podcastfy/tts/providers/elevenlabs.py:70-71 | `v[1]` is in range exactly when the segment contains `=` |
| `ElevenLabs.FillFails` | podcastfy/tts/providers/elevenlabs.py:68-71 | the loop fails exactly when some segment has no `=` |
| `ElevenLabs.FillKeys` | podcastfy/tts/providers/elevenlabs.py:68-71 | the dictionary's key set is exactly the set of segment keys (text before the first `=`) |
| `ElevenLabs.FillLastWins` | podcastfy/tts/providers/elevenlabs.py:68-71 | the value of a key is the value of its last segment, i.e. the raw text between that segment's first and second `=` |
| `ElevenLabs.FillExcludes` | podcastfy/tts/providers/elevenlabs.py:68-71 | keys and values hold no `=` and no character that no segment holds |
| `ElevenLabs.ParseFailsIff` | podcastfy/tts/providers/elevenlabs.py:63-71 | `parse_voice` raises `IndexError` exactly when some segment has no `=` |
| `ElevenLabs.SegmentsExclude` | podcastfy/tts/providers/elevenlabs.py:59-66 | no segment holds a space, `)` or `(` |
| `ElevenLabs.ParseNoSeparators` | podcastfy/tts/providers/elevenlabs.py:59-71 | a parsed name, key or value holds no space, `)` or `(`, and keys and values hold no `=` |
| `ElevenLabs.ParseBareNameFails` | podcastfy/tts/providers/elevenlabs.py:61-71 | a bare name without `=` (such as `Alice`) raises `IndexError` |
| `ElevenLabs.ParseEmptyListFails` | podcastfy/tts/providers/elevenlabs.py:59-71 | `name()` raises `IndexError` |
| `ElevenLabs.ParseBarePair` | podcastfy/tts/providers/elevenlabs.py:61-71 | `k=v` without parentheses parses to name `k=v` and dictionary `{k: v}` |
| `ElevenLabs.ParseIgnoresSpaces` | podcastfy/tts/providers/elevenlabs.py:59 | deleting spaces first does not change the result |
| `ElevenLabs.ParseIgnoresClosingParens` | podcastfy/tts/providers/elevenlabs.py:60 | deleting every `)` first does not change the result, wherever the `)` stood |
| `ElevenLabs.FillEntries` | podcastfy/tts/providers/elevenlabs.py:68-71 | the loop over rendered `k=v` segments builds the pairs' dictionary, with the last value winning |
| `ElevenLabs.SegmentsOfList` | podcastfy/tts/providers/elevenlabs.py:59-66 | for `name(list)` the name is `name` and the segments are the comma-separated pieces of `list` |
| `ElevenLabs.ParseRender` | podcastfy/tts/providers/elevenlabs.py:57-72 | round trip: `name(k1=v1,...,kn=vn)` parses back to `name` and the pairs' dictionary |
| `ElevenLabs.ParseOneSegment` | podcastfy/tts/providers/elevenlabs.py:61-71 | a one-segment list parses to that segment's key and value |
| `ElevenLabs.ParsePipeIsNoSeparator` | podcastfy/tts/providers/elevenlabs.py:66-71 | a list written with a pipe between two `k=v` pairs is one segment, whose value runs from the first `=` through the pipe to the second key |
| `ElevenLabs.Lookup` | podcastfy/tts/providers/elevenlabs.py:25-34 | exactly the five settings keys name a field |
| `ElevenLabs.FromProvider` | podcastfy/tts/providers/elevenlabs.py:23-24 | before the merge every field holds the provider's default for its key |
| `ElevenLabs.WithOverrides` | podcastfy/tts/providers/elevenlabs.py:25-34 | after the merge each field holds the parsed string if its key is in the dictionary, and otherwise keeps its old value |
| `ElevenLabs.OverridesIgnoreUnknownKeys` | podcastfy/tts/providers/elevenlabs.py:25-34 | keys other than the five change nothing |
| `ElevenLabs.OverridesIdempotent` | podcastfy/tts/providers/elevenlabs.py:25-34 | applying the same overrides twice equals applying them once |
| `ElevenLabs.VoiceSettings.constructor` | podcastfy/tts/providers/elevenlabs.py:23-24 | the settings object starts at the provider's defaults |
| `ElevenLabs.VoiceSettings.ApplyOverrides` | podcastfy/tts/providers/elevenlabs.py:25-34 | the object's new fields are `WithOverrides` of its old fields |
| `ElevenLabs.GenerateAudio` | podcastfy/tts/providers/elevenlabs.py:19-48 | fails exactly when parsing fails, before any lookup; otherwise looks up the parsed name, returns `b''`, and sends each setting as the override if present, else the provider default |
| `ElevenLabs.SupportedTags` | podcastfy/tts/providers/elevenlabs.py:74-76 | five tags `lang`, `p`, `phoneme`, `s`, `sub`, each listed once, in strictly increasing lexicographic order |

## Left out

- The SDK client built in `__init__` (line 16) and the network call of `get_voice` (lines 50-55) are foreign code and I/O. `get_voice` is the total function parameter `getVoice`. A lookup that fails (unknown voice, network error) is not modelled.
- The `print` at line 46 is console output. The printed request is returned as a `Request` value instead.
- The voice object that line 23 binds to `voice` and line 46 prints is represented by the id it was looked up with (`Request.voiceId`) and a copy of its merged settings. That the printed settings are the very object the merge mutated is not modelled.
- The commented-out synthesis call and chunk joining (lines 36-43) are not live code.
- Float and boolean meanings of settings values are left out. Overrides stay raw strings and defaults have the abstract type `D`.
- The unused `voice2` parameter and the stored `self.model` have no behaviour and are not modelled.
- The dictionary's insertion order is not modelled. The source never observes it, since lines 25-34 only test `in` and read `[]`.
- The syntax error at line 57 (`-> str, dict:`) and the undefined `Voice` at line 50 belong to the source text. The model follows what the lines evidently mean.
- GenerateAudio: because `getVoice` is a pure function, "parsing happens before the lookup" appears only as "a spec that fails to parse yields no request". The model records no order of calls.
- ElevenLabs.VoiceSettings.ApplyOverrides: in the source, line 23 binds `voice` to the object `get_voice` returns, `voiceSettings` is that object's `settings`, and lines 25-34 mutate it in place. The model instead builds a fresh `VoiceSettings` from `getVoice`'s defaults and mutates that, so it does not capture that the merge changes the object `get_voice` returned.

