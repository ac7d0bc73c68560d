/** The prompt builders (app.py section "Build Final Prompt" and the
    file-mode prompts of the two actions): fixed instruction blocks joined
    with the document text, or with a notice that the file itself is
    attached. */
module Prompts {
  import opened PyText

  /** PROMPT_COMMON_RULES: rules applied to every request. */
  const CommonRules: string := "\n[공통 규칙]\n- 반드시 한국어로 답변하세요.\n- 당신은 'KIHS(한국수자원조사기술원) 보고서 분석가'입니다.\n- 문서에 없는 내용은 만들지 말고, 불확실하면 '문서에서 확인 불가'라고 명시하세요.\n- 가능한 경우, 근거가 되는 문서 표현을 짧게 요약하여 함께 제시하세요(직접 인용은 1문장 이내).\n- 과장 없이 간결하고 단정한 문장으로 작성하세요.\n"

  /** PROMPT_SECTIONS_SUMMARY: the sections of the summary report. */
  const SummarySections: string := "\n[출력 섹션]\n1) 핵심 요약 (6줄 이내)\n2) 연구 배경/문제정의 (bullet 3~6개)\n3) 주요 성과/결과 (bullet 5~10개, 가능하면 정량/수치 포함)\n4) 결론 (bullet 3~6개)\n5) 정책 시사점 (3~6개, 실행형 문장)\n6) 기술 시사점 (3~6개, 실행형 문장)\n7) 한계/리스크/전제 (bullet 3~8개)\n8) 다음 단계 제안 (3~6개)\n"

  /** PROMPT_SECTIONS_QUIZ up to its one `{num_q}` placeholder ... */
  const QuizSectionsBefore: string := "\n[출력 형식(퀴즈)]\n- 문항 수: "

  /** ... and after it. */
  const QuizSectionsAfter: string := "문항\n- 각 문항은 다음 형식으로만 작성:\n\nQ1. (문제)\nA) 보기\nB) 보기\nC) 보기\nD) 보기\n정답: (A/B/C/D)\n해설: (문서 근거 기반 2~4줄)\n\n- 모든 문항은 문서 내용에 근거해야 하며, 추측/창작 금지.\n"

  /** PROMPT_OPTIONS: tone, audience and wording options. */
  const Options: string := "\n[옵션]\n- 톤: 공공기관 보고서 스타일(차분, 단정, 과장 없음)\n- 독자: 수자원/물관리 분야 실무자 및 연구자\n- 금지: 홍보성 표현, 선정적/감정적 표현, 근거 없는 단정\n- 용어: 가능하면 한국어 용어 우선(예: water treatment plant=정수장)\n"

  /** TASK_SUMMARY and TASK_QUIZ: the task instructions. */
  const TaskSummary: string := "\n[작업]\n업로드된 KIHS 보고서(PDF)의 내용을 바탕으로, 아래 섹션에 맞춰 요약 보고서를 작성하세요.\n"
  const TaskQuiz: string := "\n[작업]\n업로드된 KIHS 보고서(PDF)의 내용을 바탕으로, 핵심 이해도를 점검하는 객관식 퀴즈를 생성하세요.\n"

  /** The heading placed above the document text. */
  const DocumentHeading: string := "[문서 텍스트]\n"

  /** The notice that replaces the document text in file mode. */
  const FileModeNotice: string := "※ 문서 텍스트 추출이 부족하여 파일 기반으로 분석합니다."

  /** `PROMPT_SECTIONS_QUIZ.format(num_q=numQ)`. */
  function QuizSections(numQ: nat): string {
    QuizSectionsBefore + NatToString(numQ) + QuizSectionsAfter
  }

  /** build_prompt_for_summary. */
  function SummaryPrompt(docText: string): string {
    Strip("\n" + CommonRules + "\n" + Options + "\n" + SummarySections + "\n\n"
          + TaskSummary + "\n\n" + DocumentHeading + docText + "\n")
  }

  /** build_prompt_for_quiz. */
  function QuizPrompt(docText: string, numQ: nat): string {
    Strip("\n" + CommonRules + "\n" + Options + "\n" + QuizSections(numQ) + "\n\n"
          + TaskQuiz + "\n\n" + DocumentHeading + docText + "\n")
  }

  /** The summary action's prompt in file mode. */
  function FileSummaryPrompt(): string {
    CommonRules + "\n" + Options + "\n" + SummarySections + "\n\n" + TaskSummary + "\n\n" + FileModeNotice
  }

  /** The quiz action's prompt in file mode. */
  function FileQuizPrompt(numQ: nat): string {
    CommonRules + "\n" + Options + "\n" + QuizSections(numQ) + "\n\n" + TaskQuiz + "\n\n" + FileModeNotice
  }

  /** The instruction blocks of the summary action, shared by both modes. */
  function SummaryInstructions(): string {
    CommonRules + "\n" + Options + "\n" + SummarySections + "\n\n" + TaskSummary + "\n\n"
  }

  /** The instruction blocks of the quiz action, shared by both modes. */
  function QuizInstructions(numQ: nat): string {
    CommonRules + "\n" + Options + "\n" + QuizSections(numQ) + "\n\n" + TaskQuiz + "\n\n"
  }

  /** The text-mode template, read as "\n", the instruction blocks, the
      heading and the document. */
  lemma Regroup(rules: string, options: string, sections: string, task: string, docText: string)
    ensures "\n" + rules + "\n" + options + "\n" + sections + "\n\n" + task + "\n\n" + DocumentHeading + docText + "\n"
         == "\n" + (rules + "\n" + options + "\n" + sections + "\n\n" + task + "\n\n") + DocumentHeading + docText + "\n"
  {
  }

  /** The fixed text in front of the document in a text-mode prompt:
      "\n", the instruction blocks and the document heading, less their
      leading whitespace. */
  function Preamble(instructions: string): string {
    TrimStart("\n" + instructions + DocumentHeading)
  }

  /** Stripping "\n" + instructions + heading + document + "\n", where the
      document ends in a non-whitespace character, leaves the preamble
      followed by the document, verbatim. */
  lemma StripAroundDocument(instructions: string, docText: string)
    requires docText != [] && !IsSpace(docText[|docText| - 1])
    ensures Strip("\n" + instructions + DocumentHeading + docText + "\n")
         == Preamble(instructions) + docText
  {
    var lead := "\n" + instructions;
    var head := lead + DocumentHeading;
    assert head[|lead|] == DocumentHeading[0] == '[';
    assert "\n" + instructions + DocumentHeading + docText + "\n" == head + (docText + "\n");
    TrimStartAppend(head, docText + "\n", |lead|);
    var body := Preamble(instructions) + docText;
    assert body[|body| - 1] == docText[|docText| - 1];
    assert TrimStart(head) + (docText + "\n") == body + "\n";
    TrimEndAppendSpaces(body, "\n");
  }

  /** The summary prompt is a fixed preamble (the summary instruction
      blocks and the document heading) followed by the document text
      itself, verbatim and last; the file-mode prompt carries the same
      instruction blocks followed by the file-mode notice instead. */
  lemma SummaryPromptShape(docText: string)
    requires docText != [] && !IsSpace(docText[|docText| - 1])
    ensures SummaryPrompt(docText) == Preamble(SummaryInstructions()) + docText
    ensures FileSummaryPrompt() == SummaryInstructions() + FileModeNotice
  {
    Regroup(CommonRules, Options, SummarySections, TaskSummary, docText);
    StripAroundDocument(SummaryInstructions(), docText);
  }

  /** The quiz prompt is a fixed preamble (the quiz instruction blocks with
      the requested number of questions, and the document heading) followed
      by the document text itself, verbatim and last; the file-mode prompt
      carries the same instruction blocks followed by the file-mode notice
      instead. */
  lemma QuizPromptShape(docText: string, numQ: nat)
    requires docText != [] && !IsSpace(docText[|docText| - 1])
    ensures QuizPrompt(docText, numQ) == Preamble(QuizInstructions(numQ)) + docText
    ensures FileQuizPrompt(numQ) == QuizInstructions(numQ) + FileModeNotice
  {
    Regroup(CommonRules, Options, QuizSections(numQ), TaskQuiz, docText);
    StripAroundDocument(QuizInstructions(numQ), docText);
  }
}
