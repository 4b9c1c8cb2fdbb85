# PDF-to-MP3 audiobook maker, modelled in Dafny

The application is a single Streamlit script, `app.py`. A user uploads a PDF.
The script extracts each page's text, turns line breaks into spaces and joins
the pages with single spaces. If the result holds anything but whitespace, it
detects the language from the first 1000 characters. It clamps that language
to the two voice-table keys, Hebrew and English, defaulting to English. It
picks one of four neural voices by language and by the gender chosen on a
radio button. When the user presses "Generate MP3", it streams speech at the
slider's rate. The rate is rendered as a signed percentage such as `+10%`.
The audio payloads of the stream are accumulated into one byte buffer.

The model keeps the logic between the library calls:

- `speed.dfy` (module `Speed`): the `{:+d}%` rendering of the slider value, and
  a parser for the rate syntax that reads it back.
- `voices.dfy` (module `Voices`): the constant voice table, the language
  default and the voice lookup.
- `text.dfy` (module `Text`): newline replacement, the space join, Python's
  `str.isspace` and `str.strip`, the non-blank guard and the 1000-character
  detection sample.
- `synthesis.dfy` (module `Synthesis`): stream chunks and the `generate_audio`
  accumulation loop, as a method with a `while` loop proved against the
  specification function `AudioOf`.
- `app.dfy` (module `App`): the top-level flow as one method. The PDF pages,
  the language detector and the speech service are its parameters.
- `wrappers.dfy` (module `Wrappers`): the `Option` type.

`app.py` takes each page's text as `get_text()` returns it. The detector's
failure is not a separate recoverable error. It is caught by the script's one
`except Exception`, which is modelled as the outcome `DetectionFailed`.

## Model

| member | source | states |
|---|---|---|
| Speed.Digits | app.py:15 | the decimal rendering of a magnitude is non-empty, all digits, has no leading zero, and is one digit long exactly for values below 10 |
| Speed.SpeedString | app.py:14-15 | the rate string starts with '+' exactly for non-negative values and with '-' exactly for negative ones, ends in '%', and holds only digits in between |
| Speed.ParseSpeed | app.py:14 | the rate syntax the speech service accepts (sign, digits, '%'); anything it accepts is at least three characters and ends in '%' |
| Speed.NatOfDigits | app.py:15 | the decimal digits of a magnitude denote that magnitude |
| Speed.SpeedRoundTrip | app.py:15 | parsing the rendered rate gives back the slider value, for every integer |
| Speed.SpeedStringInjective | app.py:15 | distinct slider values render to distinct rate strings |
| Speed.SpeedStringZero | app.py:15 | zero renders as "+0%" |
| Speed.SliderSpeedString | app.py:13-15 | for every slider value (-50..50 in steps of 5) the rate string has 3 or 4 characters, so the magnitude has at most two digits, and 3 exactly when the magnitude is below 10 |
| Voices.SupportedLang | app.py:49 | the clamped language is always a key of the voice table; it equals the detected code exactly when that code is "he" or "en"; otherwise it is the default "en" |
| Voices.SelectVoice | app.py:54-55 | the lookup is defined for every table key and both genders, yields one of the four voice identifiers, and the identifier begins with the language code |
| Voices.SelectVoiceInjective | app.py:20-29 | two different (language, gender) pairs never map to the same voice |
| Voices.SelectVoiceOnto | app.py:20-29 | every one of the four voices is reached by some (language, gender) pair |
| Text.ReplaceNewlines | app.py:43 | `replace('\n', ' ')` keeps the length, leaves no line break, turns each line break into a space and keeps every other character in place |
| Text.ReplaceNewlinesAllSpace | app.py:43 | replacing line breaks does not change whether a text is all whitespace |
| Text.Join | app.py:43 | joining no parts gives ""; joining n >= 1 parts gives the sum of their lengths plus n-1 characters |
| Text.JoinAt | app.py:43 | part i of a join sits at offset (sum of earlier lengths + i), preceded by a space unless it is the first |
| Text.JoinAllSpace | app.py:43 | a join is all whitespace exactly when every part is |
| Text.JoinNoNewline | app.py:43 | joining line-break-free parts with spaces gives a line-break-free text |
| Text.AssembleText | app.py:43 | the document text has no line break; zero pages give ""; n >= 1 pages give the sum of the page lengths plus n-1 characters |
| Text.AssemblePageAt | app.py:43 | page i, with line breaks replaced, sits at its offset in the document text, after a separating space unless it is first, so pages keep their order |
| Text.AssembleTextAllSpace | app.py:43 | the document text is all whitespace exactly when every page text is |
| Text.TrimStart | app.py:45 | dropping leading whitespace leaves a suffix that does not start with whitespace, and only whitespace was dropped |
| Text.TrimEnd | app.py:45 | dropping trailing whitespace leaves a prefix that does not end with whitespace, and only whitespace was dropped |
| Text.Strip | app.py:45 | `strip()` is the text with only leading and trailing whitespace removed: a contiguous slice with whitespace outside it, empty exactly when the text is all whitespace, otherwise starting and ending with non-whitespace |
| Text.AssembleTextHasContent | app.py:43-45 | the guard in front of detection passes exactly when some page holds a non-whitespace character |
| Text.Sample | app.py:47 | the detection sample is a prefix of the text of at most 1000 characters, and the whole text when it is shorter than that |
| Synthesis.AudioChunks | app.py:35 | filtering keeps exactly the audio chunks: every kept chunk is an audio chunk of the stream, every audio chunk of the stream is kept, and never more than the stream holds |
| Synthesis.AudioChunksAppend | app.py:34-35 | filtering two stretches of stream one after the other gives their audio chunks in stream order |
| Synthesis.AudioOfAppend | app.py:34-36 | consuming two stretches of stream one after the other appends their audio bytes |
| Synthesis.AudioOfIsFilterConcat | app.py:33-37 | the accumulated buffer is the in-order concatenation of the data of the chunks tagged "audio" |
| Synthesis.AudioOfNoAudio | app.py:33-37 | a stream with no audio chunk, the empty stream included, yields no bytes |
| Synthesis.AudioOfGrows | app.py:34-36 | the buffer only grows by appending: after i chunks it is a prefix of the buffer after any j >= i chunks |
| Synthesis.AudioOfExample | app.py:34-36 | an audio chunk, a non-audio chunk and an audio chunk give the two audio payloads in order |
| Synthesis.GenerateAudio | app.py:31-37 | `generate_audio` returns exactly the buffer the stream accumulates, which is the in-order concatenation of the audio chunks' data |
| App.Convert | app.py:39-61 | nothing runs when the text is blank; the detector is asked only about the 1000-character sample; a detector failure is reported; otherwise the voice is the table's voice for the clamped language and chosen gender; audio is produced only when requested, from the full text, that voice and the rendered rate |

## Left out

- PDF parsing (`fitz.open`, `page.get_text()`): a foreign library. The pages arrive as a sequence of strings.
- Language detection (`langdetect.detect`): a foreign statistical detector. It is a function parameter that may answer with any string or fail.
- The speech service (`edge_tts.Communicate(...).stream()`, `asyncio.run`): network and async plumbing. It is a function parameter giving the finite chunk sequence streamed for (text, voice, rate).
- A stream that fails part-way: the service is modelled as always delivering its whole chunk sequence.
- The `except Exception` handler (app.py:62-63): it only formats a message. Of the failures it catches, only a failing detector is modelled, as the outcome `DetectionFailed`.
- All Streamlit presentation: page setup, titles, sidebar, uploader, radio, button, spinners, `st.write` of `lang.upper()`, the audio player and the download button with its file name.
- Synthesis.Chunk: non-audio chunks carry a `data` field in the model, which is never read. In the source they have no `data` key.
- Text.IsSpace: follows the code points Python's `str.isspace` accepts. Python strings may hold lone surrogates. Dafny characters cannot, so the model does not cover them.
