/**
 * The perspective clause chosen by exact match on the request's `perspective`
 * field, and the coaching prompt that embeds it.
 */
module Perspective {
  import opened JsValues

  const LeftInstruction: string :=
    "The user is the boxer on the LEFT side of the video. Focus ONLY on the left-side boxer."
  const RightInstruction: string :=
    "The user is the boxer on the RIGHT side of the video. Focus ONLY on the right-side boxer."
  const AloneInstruction: string :=
    "The user is the ONLY boxer in the video. Analyze their solo performance."

  /** The three values the if-chain recognises, compared with `===`. */
  predicate Recognized(perspective: JsValue) {
    perspective == Str("left") || perspective == Str("right") || perspective == Str("alone")
  }

  /** The clause for a perspective; anything but the three strings silently gives "". */
  function Instruction(perspective: JsValue): (r: string)
    ensures r != "" <==> Recognized(perspective)
    ensures r == "" || r == LeftInstruction || r == RightInstruction || r == AloneInstruction
  {
    if perspective == Str("left") then LeftInstruction
    else if perspective == Str("right") then RightInstruction
    else if perspective == Str("alone") then AloneInstruction
    else ""
  }

  /** The three recognised perspectives select three different clauses. */
  lemma InstructionsDistinct(a: JsValue, b: JsValue)
    requires Recognized(a) && Recognized(b)
    ensures Instruction(a) == Instruction(b) <==> a == b
  {
    assert |LeftInstruction| == 87 && |RightInstruction| == 89 && |AloneInstruction| == 72;
  }

  const PersonaLine: string := "You are a professional boxing coach."
  const FeedbackRequest: string := "Analyze the user's performance and provide:"
  const FeedbackList: string :=
    "1. Punching mistakes\n2. Footwork issues\n3. Defensive problems\n4. 3 clear improvement tips"
  const Closing: string := "Be concise, practical, and beginner-friendly."

  /** The text before the clause: the template literal opens with a newline. */
  const PromptHead: string := "\n" + PersonaLine + "\n\n"
  /** The text after the clause; the literal ends with the indentation of its closing backtick. */
  const PromptTail: string :=
    "\n\n" + FeedbackRequest + "\n" + FeedbackList + "\n\n" + Closing + "\n              "

  /** `s` holds `part` starting at position `k`. */
  predicate OccursAt(s: string, part: string, k: nat) {
    k + |part| <= |s| && s[k..k + |part|] == part
  }

  /** The template literal with the clause interpolated between the persona and the feedback list. */
  function Prompt(instruction: string): (r: string)
    ensures |r| == |PromptHead| + |instruction| + |PromptTail|
  {
    PromptHead + instruction + PromptTail
  }

  /**
   * The persona line comes first, then the clause, then the numbered list of
   * four kinds of feedback, with nothing overlapping.
   */
  lemma PromptLayout(instruction: string)
    ensures OccursAt(Prompt(instruction), PersonaLine, 1)
    ensures OccursAt(Prompt(instruction), instruction, |PromptHead|)
    ensures 1 + |PersonaLine| < |PromptHead|
    ensures OccursAt(Prompt(instruction), FeedbackList,
                     |PromptHead| + |instruction| + 3 + |FeedbackRequest|)
  {
    var r := Prompt(instruction);
    var h := |PromptHead|;
    var i := |instruction|;
    assert r[1..1 + |PersonaLine|] == PromptHead[1..1 + |PersonaLine|];
    assert r[h..h + i] == instruction;
    var l := h + i + 3 + |FeedbackRequest|;
    assert r[l..l + |FeedbackList|] == PromptTail[3 + |FeedbackRequest|..3 + |FeedbackRequest| + |FeedbackList|];
  }

  /** The prompt determines the clause it was built from. */
  lemma PromptInjective(a: string, b: string)
    ensures Prompt(a) == Prompt(b) <==> a == b
  {
    if Prompt(a) == Prompt(b) {
      PromptLayout(a);
      PromptLayout(b);
    }
  }

  /** The prompt sent for a request, from its `perspective` field. */
  function AnalysisPrompt(perspective: JsValue): (r: string)
    ensures Recognized(perspective) ==> OccursAt(r, Instruction(perspective), |PromptHead|)
    ensures !Recognized(perspective) ==> r == PromptHead + PromptTail
  {
    PromptLayout(Instruction(perspective));
    assert Prompt("") == PromptHead + PromptTail;
    Prompt(Instruction(perspective))
  }

  /** Each recognised perspective yields its own prompt; every other value yields the same clause-less one. */
  lemma AnalysisPromptsDistinct(a: JsValue, b: JsValue)
    ensures Recognized(a) && Recognized(b) ==> (AnalysisPrompt(a) == AnalysisPrompt(b) <==> a == b)
    ensures !Recognized(a) && !Recognized(b) ==> AnalysisPrompt(a) == AnalysisPrompt(b)
    ensures Recognized(a) && !Recognized(b) ==> AnalysisPrompt(a) != AnalysisPrompt(b)
  {
    PromptInjective(Instruction(a), Instruction(b));
    if Recognized(a) && Recognized(b) {
      InstructionsDistinct(a, b);
    }
  }
}
