# Boxer AI backend: a model of the logic the server owns

The server relays boxing videos to an external video-analysis model. Almost all
of its work is framework plumbing, filesystem calls and network calls. This
project models the part that the server decides itself, as pure Dafny functions
with lemmas about them:

- `normalizeWindowsPath`, which turns each pair of adjacent backslashes into
  one (module `PathNormalize`);
- the text of a millisecond timestamp, the name multer stores an upload under,
  and the path a video is copied to before analysis (`Decimal`, `Naming`);
- the perspective clause picked by exact match, and the coaching prompt built
  around it (`Perspective`);
- the 400 checks of `POST /upload` and `POST /analyze`, the upload's success
  answer, and the plan an accepted analysis goes on to carry out (`Handlers`);
- request-body fields as JSON values, with JavaScript truthiness deciding what
  counts as "missing" (`JsValues`).

Timestamps (`Date.now()`) are parameters. The upload's success answer carries
the normalized path under the key `congempath`, as the code writes it
(index.js:56-59).

The run lemmas show that `normalizeWindowsPath` is not idempotent. A run of n
backslashes keeps ceil(n/2) of them, so four become two, and a second call
makes that one. `TargetPath` is injective. So two analyses that read the clock
at index.js:96 in the same millisecond copy to the same file, and two that read
it in different milliseconds never do. The clock is read after the checks and
the directory set-up, not when the request arrives, so requests that arrive in
different milliseconds can still collide.

## Model

| member | source | states |
|---|---|---|
| JsValues.Truthy | index.js:69-72 | undefined, null, false, 0 and "" are falsy; every other value, arrays and objects included, is truthy |
| PathNormalize.NormalizeFrom | index.js:39 | the global replace resumed at position i never emits more characters than remain to be read |
| PathNormalize.NormalizeFromBounds | index.js:39 | scanning from any position emits no more characters than it reads, and at least half as many |
| PathNormalize.NormalizeWindowsPath | index.js:38-40 | the result is never longer than the input and never shorter than half of it |
| PathNormalize.KeepsOtherCharactersFrom | index.js:39 | the scan from any position keeps the non-backslash characters of the rest of the string, in order |
| PathNormalize.KeepsOtherCharacters | index.js:39 | every character other than a backslash is kept, unchanged and in order |
| PathNormalize.ShrinksFrom | index.js:39 | a pair of adjacent backslashes at or after the scan position makes the output strictly shorter than what is read |
| PathNormalize.ShrinksOnDoubleBackslash | index.js:39 | if two backslashes are adjacent anywhere, the result is strictly shorter |
| PathNormalize.UnchangedFrom | index.js:39 | without two adjacent backslashes, the scan from any position copies the rest of the string |
| PathNormalize.UnchangedWithoutDoubleBackslash | index.js:39 | a string with no two adjacent backslashes comes back unchanged |
| PathNormalize.UnchangedIffNoDoubleBackslash | index.js:39 | the string is returned unchanged if and only if it has no two adjacent backslashes |
| PathNormalize.RunStep | index.js:39 | proof step of `RunFrom`: a pair of backslashes in front of a run emits exactly one more backslash than the rest of the run |
| PathNormalize.RunFrom | index.js:39 | a run of n backslashes followed by another character or the end is emitted as ceil(n/2) backslashes, and the scan resumes after the run |
| PathNormalize.ScanOfSuffix | index.js:39 | the scan from a position depends only on the characters from that position on |
| PathNormalize.ScanSplits | index.js:39 | a boundary just after a non-backslash character never falls inside a matched pair, so the two sides are normalized independently |
| PathNormalize.MaximalRun | index.js:39 | a maximal run of n backslashes anywhere in the string becomes ceil(n/2) backslashes, and the text before and after it is normalized on its own |
| PathNormalize.NotIdempotent | index.js:39 | four backslashes become two, and normalizing again gives one |
| PathNormalize.RunEnd | index.js:39 | finds the end of the backslash run at a position, so that the run is maximal |
| PathNormalize.ScanCollapsesRuns | index.js:39 | the pairwise scan from any position equals the run-by-run reference from that position |
| PathNormalize.NormalizeCollapsesRuns | index.js:39 | the left-to-right pairwise replacement equals the run-by-run reference on every input |
| PathNormalize.CollapseRunsLength | index.js:39 | the run-by-run reference shortens the string by floor(n/2) for each maximal run of n backslashes |
| PathNormalize.LengthLosesOnePerPair | index.js:39 | the output is shorter than the input by exactly the number of pairs replaced |
| Decimal.DigitChar | index.js:31 | a digit value is written as a decimal digit character |
| Decimal.DigitValue | index.js:31 | read-back side used by `ParseDecimalString`: a digit character is read back to the value that writes it |
| Decimal.DecimalString | index.js:31 | a timestamp is written as at least one decimal digit, with a leading zero only for 0 |
| Decimal.ParseDecimalString | index.js:31 | reading the digits of a timestamp back gives the same timestamp |
| Decimal.DecimalStringInjective | index.js:31 | two timestamps are written the same if and only if they are equal |
| Naming.StoredFileName | index.js:31 | the stored upload name is the timestamp's digits, then a hyphen, and ends with the original name |
| Naming.FirstIndexOf | index.js:31 | read-back side used by `StoredFileNameRoundTrip`: finds the first occurrence of a character, or reports that it does not occur |
| Naming.StoredFileNameRoundTrip | index.js:31 | the timestamp and the original name can both be read back from the stored name |
| Naming.StoredFileNameInjective | index.js:31 | two uploads get the same stored name if and only if they have the same timestamp and the same original name |
| Naming.TargetPath | index.js:91-96 | the copy target is `/tmp/myVideo/vid-` followed by the timestamp's digits and `.mp4` |
| Naming.TargetPathInjective | index.js:96 | two analyses get the same copy target if and only if their timestamps are equal |
| Perspective.Instruction | index.js:77-88 | the clause is non-empty exactly for the strings "left", "right" and "alone"; any other value gives the empty string |
| Perspective.InstructionsDistinct | index.js:79-88 | the three recognized perspectives select three different clauses |
| Perspective.Prompt | index.js:130-142 | the prompt is as long as the fixed text plus the clause |
| Perspective.PromptLayout | index.js:130-142 | the persona line comes first, then the clause, then the four-item feedback list, without overlapping |
| Perspective.PromptInjective | index.js:130-142 | two prompts are equal if and only if their clauses are |
| Perspective.AnalysisPrompt | index.js:77-133 | a recognized perspective's clause appears right after the persona text; any other value gives the prompt with no clause |
| Perspective.AnalysisPromptsDistinct | index.js:77-133 | the three recognized perspectives give three different prompts; unrecognized values all give the same prompt, and it differs from all three |
| Handlers.Upload | index.js:45-59 | status 400 "No video uploaded" if and only if no file arrived; otherwise 200 with `success` true and the normalized path under `congempath` |
| Handlers.UploadAnswersStoredPath | index.js:54-59 | the returned `congempath` keeps every non-backslash character of the stored path, and equals that path if and only if it has no doubled backslash |
| Handlers.Analyze | index.js:67-142 | status 400 if and only if `path` or `perspective` is falsy, and `path` is checked first; otherwise the video is copied to the timestamped target, uploaded as `video/mp4` and analysed by `gemini-2.5-flash` with the perspective's prompt |
| Handlers.MissingPathIgnoresPerspective | index.js:69-71 | with a falsy `path`, the answer does not depend on the perspective or the time |
| Handlers.EmptyStringIsMissing | index.js:69-74 | an empty string counts as missing, for `path` and for `perspective` |
| Handlers.UnrecognizedPerspectiveProceeds | index.js:77-88 | a truthy perspective that is not recognized raises no error; the analysis goes ahead with an empty clause |

## Left out

- Express, multer and cors setup, route registration and `app.listen` (index.js:1-35, index.js:170-173) are framework plumbing. Multer's choice of the stored file's `path` is not part of this model, so `Upload` takes that path as given.
- Creating the scratch directories, copying the video and deleting both temporary files afterwards are filesystem effects. This includes the best-effort cleanup whose failures are only logged. `Analyze` stops at the plan: the source and the copy target.
- The external analysis service is a foreign network client: uploading the file, polling until it is `ACTIVE`, generating content and reading `result.text`. The poll loop every 2 seconds (index.js:109-113) has no bound, and only the remote state moves it forward. Nothing is claimed about it, and the `{success: true, feedback}` answer that follows it is not modelled.
- The generic 500 answer, which forwards `err.message`, and all console logging are left out.
- Decimal.DecimalString: JavaScript writes numbers of 10^21 and above in exponent form; the model always writes plain digits, which matches every real millisecond timestamp.
- If `req.body` is undefined, destructuring it throws, and the catch turns that into a 500 answer. `Analyze` takes the two fields as given.
- Concurrent requests are not modelled. Two analyses that read the clock at index.js:96 in the same millisecond race on one copy target (see `TargetPathInjective`).
- Naming.TargetPath: `path.join` is modelled with the POSIX separator `/`, as on the `/tmp` host that index.js:20-21 targets; on Windows, `path.join` would write backslashes.
