/** The submission logic of the BoltClone chat component: the transcript of
    turns, the text being typed, the API key, the loading flag and the preview
    markup, and what sending a message does to them.

    The network request is not performed: Submit returns the message list the
    component would send, and Settle receives the outcome of that request as
    a Reply value. Between the two the component waits with isLoading set. */
module Chat {
  import opened Wrappers
  import opened Strings
  import Extraction

  datatype Role = User | Assistant

  /** One message of the conversation. */
  datatype Turn = Turn(role: Role, content: string)

  /** What the request came back with: a response with its HTTP status and,
      for a readable body, the text of its first content block; or an
      exception (the fetch rejected, or the body was not the expected JSON),
      with its message. */
  datatype Reply = Response(status: nat, text: string) | Thrown(message: string)

  /** The instruction appended to every request after the user's turn. */
  const Instruction: string :=
    "Create a complete, working HTML application based on this request. Include ALL necessary HTML, CSS, and JavaScript in a single file. Make it fully functional and interactive. Use modern styling with gradients, animations, and a beautiful UI. The code should be production-ready."

  const InstructionTurn: Turn := Turn(User, Instruction)

  /** The message list sent with a request: the transcript so far, the
      user's new turn, then the instruction, which stays out of the transcript. */
  function Outbound(history: seq<Turn>, question: Turn): (r: seq<Turn>)
    ensures |r| == |history| + 2 && r[..|history|] == history
    ensures r[|history|] == question && r[|history| + 1] == InstructionTurn
  {
    history + [question, InstructionTurn]
  }

  /** The fetch API's `response.ok`: a status in the range 200-299. */
  predicate IsOk(status: nat) {
    200 <= status <= 299
  }

  /** A submission goes ahead when the input has a non-whitespace character
      and an API key has been entered. */
  predicate Accepts(input: string, apiKey: string)
    ensures Accepts(input, apiKey) <==> !IsBlank(input) && apiKey != []
  {
    TrimEmptyIff(input);
    Trim(input) != [] && apiKey != []
  }

  /** An input that starts with a non-whitespace character is accepted
      once a key has been entered. */
  lemma AcceptsText(input: string, apiKey: string)
    requires input != [] && !IsWhitespace(input[0]) && apiKey != []
    ensures Accepts(input, apiKey)
  {
  }

  /** The message of the error the reply raises inside the request's try
      block, or None when the request succeeded. */
  function ErrorMessage(reply: Reply): (m: Option<string>)
    ensures m.None? <==> reply.Response? && IsOk(reply.status)
    ensures reply.Thrown? ==> m == Some(reply.message)
  {
    match reply
    case Response(status, _) =>
      if IsOk(status) then None else Some("API Error: " + NatToString(status))
    case Thrown(message) => Some(message)
  }

  const NoticeHead: string := "Ошибка: "
  const NoticeTail: string := ". Проверьте API ключ и попробуйте снова."

  /** The text shown in the transcript for a failed request: the error's
      message, verbatim, between a fixed head and a fixed tail, so that
      different errors give different notices. */
  function ErrorNotice(message: string): (r: string)
    ensures |r| == |NoticeHead| + |message| + |NoticeTail|
    ensures r[..|NoticeHead|] == NoticeHead && r[|NoticeHead| + |message|..] == NoticeTail
    ensures r[|NoticeHead|..|NoticeHead| + |message|] == message
  {
    NoticeHead + message + NoticeTail
  }

  /** The assistant turn a reply adds to the transcript: the raw reply text
      on success, the error notice otherwise. */
  function ReplyTurn(reply: Reply): (t: Turn)
    ensures t.role == Assistant
    ensures reply.Response? && IsOk(reply.status) ==> t.content == reply.text
    ensures reply.Response? && !IsOk(reply.status) ==>
              t.content == ErrorNotice("API Error: " + NatToString(reply.status))
    ensures reply.Thrown? ==> t.content == ErrorNotice(reply.message)
  {
    match ErrorMessage(reply)
    case None => Turn(Assistant, reply.text)
    case Some(message) => Turn(Assistant, ErrorNotice(message))
  }

  /** A failed status is reported with its number, which reads back exactly. */
  lemma StatusNotice(status: nat, text: string)
    requires !IsOk(status)
    ensures var m := ErrorMessage(Response(status, text));
            && m.Some?
            && |m.value| > |"API Error: "|
            && m.value[..|"API Error: "|] == "API Error: "
            && DecimalValue(m.value[|"API Error: "|..]) == status
  {
    var m := ErrorMessage(Response(status, text)).value;
    assert m[|"API Error: "|..] == NatToString(status);
    NatToStringRoundTrip(status);
  }

  /** Completed exchanges: a user turn, then an assistant turn, repeated. */
  ghost predicate IsDialogue(ts: seq<Turn>) {
    && |ts| % 2 == 0
    && forall k :: 0 <= k < |ts| ==> ts[k].role == (if k % 2 == 0 then User else Assistant)
  }

  /** Every exchange adds one user turn and one assistant turn, so a dialogue
      extended by a user turn and an assistant turn is again a dialogue, one
      exchange longer. */
  lemma DialogueGrows(ts: seq<Turn>, question: string, answer: Turn)
    requires IsDialogue(ts) && answer.role == Assistant
    ensures IsDialogue(ts + [Turn(User, question), answer])
    ensures |ts + [Turn(User, question), answer]| / 2 == |ts| / 2 + 1
  {
  }

  /** A dialogue followed by the user turn whose answer is awaited. */
  ghost predicate IsPending(ts: seq<Turn>) {
    |ts| > 0 && IsDialogue(ts[..|ts| - 1]) && ts[|ts| - 1].role == User
  }

  lemma PendingAfterQuestion(ts: seq<Turn>, question: string)
    requires IsDialogue(ts)
    ensures IsPending(ts + [Turn(User, question)])
  {
  }

  /** Answering the pending user turn completes an exchange. */
  lemma AnswerCompletes(ts: seq<Turn>, answer: Turn)
    requires IsPending(ts) && answer.role == Assistant
    ensures IsDialogue(ts + [answer])
  {
  }

  /** The preview markup is empty while nothing was extracted, and otherwise
      the extraction of the assistant turn at index `at`. */
  ghost predicate ArtifactFrom(ts: seq<Turn>, at: Option<nat>, code: string) {
    match at
    case None => code == ""
    case Some(k) => k < |ts| && ts[k].role == Assistant && code == Extraction.Extract(ts[k].content)
  }

  lemma ArtifactKept(ts: seq<Turn>, t: Turn, at: Option<nat>, code: string)
    requires ArtifactFrom(ts, at, code)
    ensures ArtifactFrom(ts + [t], at, code)
  {
  }

  /** The component's invariant on its state values: the transcript is a
      dialogue, followed by the pending user turn while loading, and the
      preview markup is empty or extracted from one of its assistant turns. */
  ghost predicate Consistent(ts: seq<Turn>, loading: bool, at: Option<nat>, code: string) {
    && (if loading then IsPending(ts) else IsDialogue(ts))
    && ArtifactFrom(ts, at, code)
  }

  /** Recording the user's turn and starting to load keeps the invariant. */
  lemma QuestionKeeps(ts: seq<Turn>, question: string, at: Option<nat>, code: string)
    requires Consistent(ts, false, at, code)
    ensures Consistent(ts + [Turn(User, question)], true, at, code)
  {
    PendingAfterQuestion(ts, question);
    ArtifactKept(ts, Turn(User, question), at, code);
  }

  /** Appending the reply's turn and stopping loading keeps the invariant,
      with the preview taken from that turn exactly when the request
      succeeded. */
  lemma AnswerKeeps(ts: seq<Turn>, reply: Reply, at: Option<nat>, code: string)
    requires Consistent(ts, true, at, code)
    ensures ErrorMessage(reply).None? ==>
              Consistent(ts + [ReplyTurn(reply)], false, Some(|ts|), Extraction.Extract(reply.text))
    ensures ErrorMessage(reply).Some? ==> Consistent(ts + [ReplyTurn(reply)], false, at, code)
  {
    AnswerCompletes(ts, ReplyTurn(reply));
    ArtifactKept(ts, ReplyTurn(reply), at, code);
  }

  class BoltClone {
    var messages: seq<Turn>
    var input: string
    var apiKey: string
    var isLoading: bool
    var generatedCode: string

    /** The index of the assistant turn the preview markup was extracted
        from, or None while nothing has been extracted yet. */
    ghost var artifactTurn: Option<nat>

    /** The transcript is a dialogue, followed by the pending user turn while
        a request is in flight; the preview markup is empty or extracted from
        an assistant turn of the transcript. */
    ghost predicate Valid()
      reads this
    {
      Consistent(messages, isLoading, artifactTurn, generatedCode)
    }

    /** The component's initial state. The key saved in the browser is loaded
        afterwards; that storage is not part of this model. */
    constructor ()
      ensures Valid()
      ensures messages == [] && input == "" && apiKey == "" && !isLoading && generatedCode == ""
    {
      messages := [];
      input := "";
      apiKey := "";
      isLoading := false;
      generatedCode := "";
      artifactTurn := None;
    }

    /** The part of sendMessage before the request: check the input and key,
        record the user's turn, clear the input, start loading, and build the
        message list to send. The UI only calls it while not loading. */
    method Submit() returns (request: Option<seq<Turn>>)
      requires Valid() && !isLoading
      modifies this
      ensures Valid()
      ensures request.Some? <==> Accepts(old(input), old(apiKey))
      ensures apiKey == old(apiKey) && generatedCode == old(generatedCode)
      ensures request.None? ==>
                messages == old(messages) && input == old(input) && isLoading == old(isLoading)
      ensures request.Some? ==>
                && messages == old(messages) + [Turn(User, old(input))]
                && input == ""
                && isLoading
                && request.value == Outbound(old(messages), Turn(User, old(input)))
    {
      if !Accepts(input, apiKey) {
        return None;
      }
      request := Some(Outbound(messages, Turn(User, input)));
      RecordQuestion();
    }

    /** The state updates of an accepted submission: the input becomes the
        user's turn, the input is cleared and loading starts. */
    method RecordQuestion()
      requires Valid() && !isLoading
      modifies this
      ensures Valid() && isLoading
      ensures messages == old(messages) + [Turn(User, old(input))] && input == ""
      ensures apiKey == old(apiKey) && generatedCode == old(generatedCode)
    {
      QuestionKeeps(messages, input, artifactTurn, generatedCode);
      messages, input, isLoading := messages + [Turn(User, input)], "", true;
    }

    /** The part of sendMessage after the request: append the assistant's
        turn, update the preview on success, and stop loading. */
    method Settle(reply: Reply)
      requires Valid() && isLoading
      modifies this
      ensures Valid()
      ensures !isLoading
      ensures messages == old(messages) + [ReplyTurn(reply)]
      ensures input == old(input) && apiKey == old(apiKey)
      ensures reply.Response? && IsOk(reply.status) ==>
                messages[|messages| - 1].content == reply.text
                && generatedCode == Extraction.Extract(reply.text)
      ensures reply.Response? && !IsOk(reply.status) ==>
                messages[|messages| - 1].content == ErrorNotice("API Error: " + NatToString(reply.status))
                && generatedCode == old(generatedCode)
      ensures reply.Thrown? ==>
                messages[|messages| - 1].content == ErrorNotice(reply.message)
                && generatedCode == old(generatedCode)
    {
      AnswerKeeps(messages, reply, artifactTurn, generatedCode);
      var failure := ErrorMessage(reply);
      if failure.None? {
        var assistantMessage := reply.text;
        messages := messages + [Turn(Assistant, assistantMessage)];
        generatedCode := Extraction.Extract(assistantMessage);
        artifactTurn := Some(|messages| - 1);
      } else {
        messages := messages + [Turn(Assistant, ErrorNotice(failure.value))];
      }
      isLoading := false;
    }

    /** sendMessage as one step: Submit, and when it went ahead, Settle with
        the outcome of the request. */
    method SendMessage(reply: Reply) returns (request: Option<seq<Turn>>)
      requires Valid() && !isLoading
      modifies this
      ensures Valid()
      ensures request.Some? <==> Accepts(old(input), old(apiKey))
      ensures apiKey == old(apiKey) && !isLoading
      ensures request.None? ==>
                messages == old(messages) && input == old(input) && generatedCode == old(generatedCode)
      ensures request.Some? ==>
                && messages == old(messages) + [Turn(User, old(input)), ReplyTurn(reply)]
                && input == ""
                && request.value == Outbound(old(messages), Turn(User, old(input)))
                && generatedCode == (if ErrorMessage(reply).None? then Extraction.Extract(reply.text)
                                     else old(generatedCode))
    {
      request := Submit();
      if request.Some? {
        Settle(reply);
      }
    }
  }
}
