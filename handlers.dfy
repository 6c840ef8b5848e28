/**
 * The decisions the two route handlers make before any file or network work:
 * which requests are refused with status 400 and what they answer, and, for an
 * accepted analysis, what the handler goes on to do.
 */
module Handlers {
  import opened Wrappers
  import opened JsValues
  import opened PathNormalize
  import opened Naming
  import opened Perspective

  /** What multer puts in `req.file`: where it stored the upload and the client's name for it. */
  datatype UploadedFile = UploadedFile(path: string, originalName: string)

  /** JSON response bodies. */
  datatype Body =
    | Message(message: string)
    | Uploaded(success: bool, congempath: string)

  datatype Response = Response(status: nat, body: Body)

  /** The work an accepted analysis request goes on to do with the external service. */
  datatype AnalysisPlan = AnalysisPlan(
    source: JsValue,      // the file to copy: the request's `path`, as given
    targetPath: string,   // where it is copied before it is sent
    mimeType: string,
    model: string,
    prompt: string)

  datatype AnalyzeStep = Reject(response: Response) | Proceed(plan: AnalysisPlan)

  const NoVideoUploaded: string := "No video uploaded"
  const NoVideoPath: string := "No video path provided"
  const NoPerspective: string := "No perspective provided"
  const VideoMimeType: string := "video/mp4"
  const AnalysisModel: string := "gemini-2.5-flash"

  /** `POST /upload`: refuse a request without a file, otherwise answer with its normalized path. */
  function Upload(file: Option<UploadedFile>): (r: Response)
    ensures r.status == 400 <==> file.None?
    ensures file.None? ==> r.body == Message(NoVideoUploaded)
    ensures file.Some? ==> r.status == 200 && r.body.Uploaded? && r.body.success
    ensures file.Some? ==> r.body == Uploaded(true, NormalizeWindowsPath(file.value.path))
  {
    match file
    case None => Response(400, Message(NoVideoUploaded))
    case Some(f) => Response(200, Uploaded(true, NormalizeWindowsPath(f.path)))
  }

  /**
   * The path an upload answers with keeps every character of the stored path
   * other than backslashes, and is the stored path itself when that holds no
   * doubled backslash.
   */
  lemma UploadAnswersStoredPath(f: UploadedFile)
    ensures Upload(Some(f)).body.Uploaded?
    ensures WithoutBackslashes(Upload(Some(f)).body.congempath) == WithoutBackslashes(f.path)
    ensures Upload(Some(f)).body.congempath == f.path <==> !HasDoubleBackslash(f.path)
  {
    KeepsOtherCharacters(f.path);
    UnchangedIffNoDoubleBackslash(f.path);
  }

  /** `POST /analyze` up to the external calls: `path` is checked before `perspective`. */
  function Analyze(path: JsValue, perspective: JsValue, timestamp: nat): (r: AnalyzeStep)
    ensures r.Reject? <==> !Truthy(path) || !Truthy(perspective)
    ensures r.Reject? ==> r.response.status == 400
    ensures !Truthy(path) ==> r.response.body == Message(NoVideoPath)
    ensures Truthy(path) && !Truthy(perspective) ==> r.response.body == Message(NoPerspective)
    ensures r.Proceed? ==> r.plan.source == path && r.plan.targetPath == TargetPath(timestamp)
    ensures r.Proceed? ==> r.plan.mimeType == VideoMimeType && r.plan.model == AnalysisModel
    ensures r.Proceed? ==> r.plan.prompt == AnalysisPrompt(perspective)
  {
    if !Truthy(path) then
      Reject(Response(400, Message(NoVideoPath)))
    else if !Truthy(perspective) then
      Reject(Response(400, Message(NoPerspective)))
    else
      Proceed(AnalysisPlan(path, TargetPath(timestamp), VideoMimeType, AnalysisModel,
                           AnalysisPrompt(perspective)))
  }

  /** A missing `path` gets the same answer whatever the perspective and the time. */
  lemma MissingPathIgnoresPerspective(path: JsValue, p1: JsValue, p2: JsValue, t1: nat, t2: nat)
    requires !Truthy(path)
    ensures Analyze(path, p1, t1) == Analyze(path, p2, t2)
  {
  }

  /** An empty string counts as missing, for both fields. */
  lemma EmptyStringIsMissing(path: JsValue, timestamp: nat)
    ensures Analyze(Str(""), Str("left"), timestamp) == Reject(Response(400, Message(NoVideoPath)))
    ensures Truthy(path) ==>
      Analyze(path, Str(""), timestamp) == Reject(Response(400, Message(NoPerspective)))
  {
  }

  /**
   * A present perspective that is none of the three recognised strings is not
   * an error: the analysis goes ahead with an empty clause in the prompt.
   */
  lemma UnrecognizedPerspectiveProceeds(path: JsValue, perspective: JsValue, timestamp: nat)
    requires Truthy(path) && Truthy(perspective) && !Recognized(perspective)
    ensures Analyze(path, perspective, timestamp).Proceed?
    ensures Analyze(path, perspective, timestamp).plan.prompt == Prompt("")
  {
  }
}
