/** The conversation state of the chat page (`Page`): the transcript, the
    loading flag, the suggestion chips, the input box and the agent marker,
    changed by `sendMessage` and `retryLastMessage`, and the expressions that
    decide what is shown. The asynchronous `sendMessage` is cut at its one
    `await`: `Submit` runs up to the call to the agent and returns the request
    it would send; `Resolve` runs the rest once the call has an outcome. */
module Chat {
  import opened Wrappers
  import opened Text
  import opened Normalizer
  import Inline
  import Markdown

  const AgentId: string := "6996c85c9c31ef5244578008"

  /** The content of every error message. */
  const ErrorText: string := "I'm having trouble connecting. Please try again."

  const DefaultChips: seq<Json> :=
    [Str("How does Burnlab work?"), Str(PricingChip), Str("Book a Demo"),
     Str("Customer Reviews"), Str("Integration Options")]

  /** The chips shown beside the sample transcript. */
  const SampleChips: seq<Json> :=
    [Str("What integrations does Burnlab support?"), Str("How much does Burnlab cost?"),
     Str("Can I try Burnlab for free?")]

  datatype Role = User | Assistant

  /** A message id: `<prefix>-<Date.now()>` for live messages, a fixed name
      for the sample ones. Ids are not unique (two messages in the same
      millisecond share one), and nothing here relies on them. */
  datatype MessageId = Stamped(prefix: string, time: int) | Named(name: string)

  /** A transcript entry. `content` is declared a string but holds whatever
      truthy value the answer extraction picked. An absent `isError` reads as
      `false` everywhere it is used. */
  datatype Message = Message(
    id: MessageId,
    role: Role,
    content: Json,
    suggestedQuestions: Option<seq<Json>>,
    sources: Option<seq<Json>>,
    isError: bool)

  /** The request handed to the agent transport. */
  datatype Request = Request(message: string, agentId: string, sessionId: Option<string>)

  function UserMessage(text: string, now: int): Message
  {
    Message(Stamped("user", now), User, Str(text), None, None, false)
  }

  function ReplyMessage(r: Reply, now: int): Message
  {
    Message(Stamped("assistant", now), Assistant, r.answer, Some(r.suggestedQuestions), Some(r.sources), false)
  }

  function ErrorMessage(now: int): Message
  {
    Message(Stamped("error", now), Assistant, Str(ErrorText), None, None, true)
  }

  /** The chips after an accepted reply: its suggestions, or the defaults
      when it has none. */
  function ChipsAfter(r: Reply): (chips: seq<Json>)
    ensures chips != []
    ensures r.suggestedQuestions != [] ==> chips == r.suggestedQuestions
    ensures r.suggestedQuestions == [] ==> chips == DefaultChips
  {
    if |r.suggestedQuestions| > 0 then r.suggestedQuestions else DefaultChips
  }

  /** What every message of a live transcript satisfies: a user message holds
      a non-empty string that is its own trim and is never an error; an
      error message is an assistant message holding the fixed apology. */
  predicate WellFormed(m: Message)
  {
    && (m.role == User ==> m.content.Str? && m.content.text != [] && Trimmed(m.content.text) && !m.isError)
    && (m.isError ==> m.role == Assistant && m.content == Str(ErrorText))
  }

  /** A user message made from trimmed, non-empty text is well formed. */
  lemma UserMessageWellFormed(text: string, now: int)
    requires Trim(text) != []
    ensures WellFormed(UserMessage(Trim(text), now))
  {
  }

  /** Every message of a transcript is well formed. */
  predicate AllWellFormed(ms: seq<Message>)
  {
    forall i {:trigger WellFormed(ms[i])} :: 0 <= i < |ms| ==> WellFormed(ms[i])
  }

  /** Appending a well-formed message keeps every message well formed. */
  lemma AppendWellFormed(ms: seq<Message>, m: Message)
    requires AllWellFormed(ms)
    requires WellFormed(m)
    ensures AllWellFormed(ms + [m])
  {
    var r := ms + [m];
    forall i | 0 <= i < |r| ensures WellFormed(r[i]) {
      if i < |ms| {
        assert r[i] == ms[i] && WellFormed(ms[i]);
      }
    }
  }

  /** Dropping the error messages keeps every message well formed. */
  lemma WithoutErrorsWellFormed(ms: seq<Message>)
    requires AllWellFormed(ms)
    ensures AllWellFormed(WithoutErrors(ms))
  {
    var r := WithoutErrors(ms);
    forall i | 0 <= i < |r| ensures WellFormed(r[i]) {
      assert r[i] in r;
      var j :| 0 <= j < |ms| && ms[j] == r[i];
      assert WellFormed(ms[j]);
    }
  }

  /** `messages.filter((m) => !m.isError)`: every error message is dropped,
      wherever it stands, and every other message is kept in order. */
  function WithoutErrors(ms: seq<Message>): (r: seq<Message>)
    ensures |r| <= |ms|
    ensures forall i :: 0 <= i < |r| ==> !r[i].isError
    ensures forall m :: m in r ==> m in ms
    ensures forall m :: m in ms && !m.isError ==> m in r
    ensures (forall i :: 0 <= i < |ms| ==> !ms[i].isError) ==> r == ms
  {
    if ms == [] then []
    else
      var rest := WithoutErrors(ms[1..]);
      assert forall m :: m in ms[1..] ==> m in ms;
      assert forall m :: m in ms && m != ms[0] ==> m in ms[1..];
      (if ms[0].isError then [] else [ms[0]]) + rest
  }

  /** The filter works message by message: filtering a concatenation
      concatenates the filtered parts, so the kept messages stay in their
      order and each is kept as often as it occurs. */
  lemma {:induction false} WithoutErrorsAppend(a: seq<Message>, b: seq<Message>)
    ensures WithoutErrors(a + b) == WithoutErrors(a) + WithoutErrors(b)
    decreases |a|
  {
    if a == [] {
      assert a + b == b;
    } else {
      var x, t := a[0], a[1..];
      Uncons(a, b);
      WithoutErrorsPrepend(x, t + b);
      WithoutErrorsPrepend(x, t);
      WithoutErrorsAppend(t, b);
      ConcatAssoc(if x.isError then [] else [x], WithoutErrors(t), WithoutErrors(b));
    }
  }

  /** A message put in front is decided on its own, before the rest is
      filtered. */
  lemma WithoutErrorsPrepend(m: Message, ms: seq<Message>)
    ensures WithoutErrors([m] + ms) == (if m.isError then [] else [m]) + WithoutErrors(ms)
  {
    assert ([m] + ms)[0] == m && ([m] + ms)[1..] == ms;
  }

  /** A non-empty sequence is its first element followed by the rest. */
  lemma Uncons<T>(a: seq<T>, b: seq<T>)
    requires a != []
    ensures a == [a[0]] + a[1..] && a + b == [a[0]] + (a[1..] + b)
  {
  }

  /** Concatenation is associative. */
  lemma ConcatAssoc<T>(x: seq<T>, y: seq<T>, z: seq<T>)
    ensures x + (y + z) == (x + y) + z
  {
  }

  /** A single message is kept exactly when it is not an error. */
  lemma WithoutErrorsSingle(m: Message)
    ensures WithoutErrors([m]) == if m.isError then [] else [m]
  {
    assert [m][1..] == [];
  }

  /** `[...messages].reverse().find((m) => m.role === 'user')`, as the index
      of that message: the last user message, if there is any. */
  function LastUser(ms: seq<Message>): (r: Option<nat>)
    ensures r.Some? ==> r.value < |ms| && ms[r.value].role == User
    ensures r.Some? ==> forall k :: r.value < k < |ms| ==> ms[k].role != User
    ensures r.None? ==> forall k :: 0 <= k < |ms| ==> ms[k].role != User
    decreases |ms|
  {
    if ms == [] then None
    else if ms[|ms| - 1].role == User then Some(|ms| - 1)
    else LastUser(ms[..|ms| - 1])
  }

  /** The text of the last user message, which a well-formed transcript
      holds as a non-empty string that is its own trim. */
  function LastUserText(ms: seq<Message>): (r: Option<string>)
    requires AllWellFormed(ms)
    ensures r.None? <==> forall k :: 0 <= k < |ms| ==> ms[k].role != User
    ensures r.Some? ==> r.value != [] && Trim(r.value) == r.value
    ensures r.Some? ==> LastUser(ms).Some? && ms[LastUser(ms).value].content == Str(r.value)
  {
    match LastUser(ms)
    case None => None
    case Some(i) =>
      assert WellFormed(ms[i]);
      var t := ms[i].content.text;
      TrimOfTrimmed(t);
      Some(t)
  }

  /** The contents of the two sample answers. */
  const SampleFeaturesAnswer: string :=
    "**Burnlab** is an advanced analytics platform designed to help businesses understand customer behavior and optimize their digital experiences.\n" +
    "\n" +
    "### Key Features:\n" +
    "- **Real-time Analytics** - Track user interactions as they happen\n" +
    "- **Heatmap Visualization** - See where users click, scroll, and engage\n" +
    "- **Session Recording** - Replay user sessions for deeper insights\n" +
    "- **A/B Testing** - Run experiments to optimize conversion rates\n" +
    "\n" +
    "Burnlab integrates seamlessly with your existing tech stack and provides actionable insights within minutes of setup.\n" +
    "\n" +
    "[Learn more about Burnlab](https://burnlab.com/features)\n" +
    "\n" +
    "Would you like to [Book a Demo](https://burnlab.com/demo) to see it in action?"

  const SamplePricingAnswer: string :=
    "### Burnlab Pricing Plans\n" +
    "\n" +
    "Burnlab offers flexible pricing to suit teams of all sizes:\n" +
    "\n" +
    "1. **Starter** - $29/month\n" +
    "   - Up to 10,000 sessions/month\n" +
    "   - Basic analytics & heatmaps\n" +
    "   - Email support\n" +
    "\n" +
    "2. **Professional** - $99/month\n" +
    "   - Up to 100,000 sessions/month\n" +
    "   - Advanced analytics, A/B testing\n" +
    "   - Priority support\n" +
    "\n" +
    "3. **Enterprise** - Custom pricing\n" +
    "   - Unlimited sessions\n" +
    "   - Custom integrations & API access\n" +
    "   - Dedicated account manager\n" +
    "\n" +
    "All plans include a **14-day free trial** with no credit card required.\n" +
    "\n" +
    "[Start your free trial](https://burnlab.com/signup) or [Contact Sales](https://burnlab.com/contact) for enterprise pricing."

  /** The sample transcript shown when sample data is switched on and nothing
      has been said yet. */
  function SampleMessages(): seq<Message>
  {
    [ Message(Named("sample-1"), User, Str("How does Burnlab work?"), None, None, false),
      Message(Named("sample-2"), Assistant,
        Str(SampleFeaturesAnswer),
        Some([Str("What integrations does Burnlab support?"), Str("How much does Burnlab cost?"), Str("Can I try Burnlab for free?")]),
        Some([Str("https://burnlab.com/features"), Str("https://burnlab.com/docs")]), false),
      Message(Named("sample-3"), User, Str("What are the pricing plans?"), None, None, false),
      Message(Named("sample-4"), Assistant,
        Str(SamplePricingAnswer),
        Some([Str("Is there a free trial?"), Str("What payment methods do you accept?"), Str("Can I switch plans anytime?")]),
        Some([Str("https://burnlab.com/pricing")]), false) ]
  }

  // ---------------------------------------------------------------
  // What is shown
  // ---------------------------------------------------------------

  /** `displayedMessages`: the sample transcript stands in for an empty one
      while sample data is on; a real transcript is always shown as is. */
  function Displayed(messages: seq<Message>, showSample: bool): (r: seq<Message>)
    ensures messages != [] ==> r == messages
    ensures r == [] <==> messages == [] && !showSample
  {
    if showSample && |messages| == 0 then SampleMessages() else messages
  }

  /** `displayedChips`: the sample chips go with the sample transcript. */
  function DisplayedChips(messages: seq<Message>, showSample: bool, chips: seq<Json>): (r: seq<Json>)
    ensures messages != [] ==> r == chips
  {
    if showSample && |messages| == 0 then SampleChips else chips
  }

  /** `showChipsAfterResponse`: the last shown message is an assistant
      message that is not an error, and no reply is awaited. */
  predicate ShowChips(shown: seq<Message>, loading: bool)
  {
    shown != [] && shown[|shown| - 1].role == Assistant && !shown[|shown| - 1].isError && !loading
  }

  /** The retry button: the last shown message is an error and no reply is
      awaited. */
  predicate ShowRetry(shown: seq<Message>, loading: bool)
  {
    shown != [] && shown[|shown| - 1].isError && !loading
  }

  /** The chips and the retry button are never shown together, and neither
      is shown while a reply is awaited. */
  lemma ChipsXorRetry(shown: seq<Message>, loading: bool)
    ensures !(ShowChips(shown, loading) && ShowRetry(shown, loading))
    ensures loading ==> !ShowChips(shown, loading) && !ShowRetry(shown, loading)
  {
  }

  /** With sample data on and an empty transcript, the sample answer is last,
      so the sample chips are offered and the retry button is not. */
  lemma SampleShowsChips()
    ensures ShowChips(Displayed([], true), false)
    ensures !ShowRetry(Displayed([], true), false)
    ensures DisplayedChips([], true, DefaultChips) == SampleChips
  {
  }

  /** What a non-error assistant bubble shows: `renderMarkdown(message.content)`.
      An error bubble shows its content as plain text instead. */
  datatype Bubble = Nothing | Blocks(blocks: seq<Markdown.Block>) | RenderFails

  /** `renderMarkdown` applied to whatever the content holds. Falsy content
      renders nothing (`if (!text) return null`), a non-empty string renders
      its blocks, and any other truthy value has no `split` method: the call
      throws a `TypeError` and the bubble fails to render. */
  function RenderContent(c: Json): Bubble
  {
    if !Truthy(c) then Nothing
    else if c.Str? then Blocks(Markdown.RenderMarkdown(c.text).value)
    else RenderFails
  }

  /** A reply is appended with a truthy answer, so its bubble renders blocks
      when the answer is a string and fails to render otherwise. */
  lemma ReplyBubble(response: Json, now: int)
    requires Truthy(response)
    ensures var c := ReplyMessage(Normalize(response), now).content;
      RenderContent(c).Blocks? <==> c.Str?
  {
  }

  /** A successful call whose result's answer is the number 42. */
  const NumberOutcome: Outcome :=
    Returned(Obj(map["success" := Bool(true), "response" := Obj(map["result" := Obj(map["answer" := Num(42.0)])])]))

  /** `{answer: 42}` is accepted, the number becomes the message content,
      and that message's bubble fails to render. */
  lemma NumericAnswerFailsToRender(now: int)
    ensures Accept(NumberOutcome) == Some(Reply(Num(42.0), [], []))
    ensures RenderContent(ReplyMessage(Accept(NumberOutcome).value, now).content) == RenderFails
  {
    assert Accept(NumberOutcome) == Some(Reply(Num(42.0), [], []));
  }

  /** A reply whose result holds only an answer is accepted with that
      answer, no suggestions and no sources. */
  lemma PlansAccepted()
    ensures Accept(PlansOutcome) == Some(Reply(Str(PlansAnswer), [], []))
  {
  }

  /** The chip that asks about pricing. */
  const PricingChip: string := "Pricing & Plans"

  /** A reply whose answer is a heading and one bullet. */
  const PlansAnswer: string := "### Plans\n- Starter"

  /** The successful outcome that carries `PlansAnswer`. */
  const PlansOutcome: Outcome :=
    Returned(Obj(map["success" := Bool(true), "response" := Obj(map["result" := Obj(map["answer" := Str(PlansAnswer)])])]))

  /** A heading line followed by a bullet line, neither holding markup,
      renders as a level-3 heading and a bullet of plain text. */
  lemma HeadingThenBullet(title: string, item: string)
    requires '\n' !in title && '[' !in title && '*' !in title
    requires '\n' !in item && '[' !in item && '*' !in item
    ensures Markdown.RenderMarkdown("### " + title + "\n" + "- " + item)
            == Some([Markdown.Heading(3, [Inline.Plain(title)]),
                     Markdown.ListItem(Markdown.Disc, [Inline.Plain(item)])])
  {
    var heading, bullet := "### " + title, "- " + item;
    assert '\n' !in heading && '\n' !in bullet;
    assert "### " + title + "\n" + "- " + item == heading + "\n" + bullet;
    Markdown.RenderTwoLines(heading, bullet);
    Markdown.HeadingMarkers(title);
    Markdown.BulletMarkers(item);
    PlainLine(title);
    PlainLine(item);
  }

  /** A line without `[` or `*` is formatted as one plain span. */
  lemma PlainLine(s: string)
    requires '[' !in s && '*' !in s
    ensures Inline.FormatInline(s) == [Inline.Plain(s)]
  {
    Inline.BracketFreeHasNoLink(s);
    Inline.NoMarkupVerbatim(s);
  }

  /** The answer `### Plans` / `- Starter` renders as a level-3 heading
      followed by a bullet. */
  lemma PlansRendered()
    ensures Markdown.RenderMarkdown(PlansAnswer)
            == Some([Markdown.Heading(3, [Inline.Plain("Plans")]),
                     Markdown.ListItem(Markdown.Disc, [Inline.Plain("Starter")])])
  {
    var title, item := "Plans", "Starter";
    assert '\n' !in title && '[' !in title && '*' !in title by {
      assert forall k :: 0 <= k < |title| ==> title[k] in {'P', 'l', 'a', 'n', 's'};
    }
    assert '\n' !in item && '[' !in item && '*' !in item by {
      assert forall k :: 0 <= k < |item| ==> item[k] in {'S', 't', 'a', 'r', 'e'};
    }
    assert "### " + title + "\n" + "- " + item == PlansAnswer;
    HeadingThenBullet(title, item);
  }

  // ---------------------------------------------------------------
  // The page state
  // ---------------------------------------------------------------

  class ChatPage {
    var messages: seq<Message>
    var inputValue: string
    var isLoading: bool
    var sessionId: Option<string>
    var currentChips: seq<Json>
    var showSampleData: bool
    var activeAgentId: Option<string>

    /** Every message is well formed, and the agent marker is set exactly
        while a reply is awaited. */
    ghost predicate Valid()
      reads this
    {
      && AllWellFormed(messages)
      && activeAgentId == (if isLoading then Some(AgentId) else None)
    }

    /** The state on mount, with the session id already minted. */
    constructor (session: Option<string>)
      ensures Valid()
      ensures messages == [] && inputValue == "" && !isLoading
      ensures sessionId == session && currentChips == DefaultChips && !showSampleData && activeAgentId == None
    {
      messages := [];
      inputValue := "";
      isLoading := false;
      sessionId := session;
      currentChips := DefaultChips;
      showSampleData := false;
      activeAgentId := None;
    }

    /** The text area's `onChange`. */
    method SetInput(value: string)
      requires Valid()
      modifies this
      ensures Valid()
      ensures inputValue == value
      ensures messages == old(messages) && isLoading == old(isLoading) && currentChips == old(currentChips)
      ensures sessionId == old(sessionId) && showSampleData == old(showSampleData) && activeAgentId == old(activeAgentId)
    {
      inputValue := value;
    }

    /** The sample-data switch. */
    method SetShowSampleData(on: bool)
      requires Valid()
      modifies this
      ensures Valid()
      ensures showSampleData == on
      ensures messages == old(messages) && inputValue == old(inputValue) && isLoading == old(isLoading)
      ensures currentChips == old(currentChips) && sessionId == old(sessionId) && activeAgentId == old(activeAgentId)
    {
      showSampleData := on;
    }

    /** `sendMessage(text)` up to the agent call. Empty (after trimming)
        text, or a reply still awaited, changes nothing and sends nothing.
        Otherwise exactly one user message with the trimmed text is
        appended, the input is cleared, loading starts, and the trimmed text
        goes to the agent with the session id. */
    method Submit(text: string, now: int) returns (sent: Option<Request>)
      requires Valid()
      modifies this
      ensures Valid()
      ensures sent.None? <==> Trim(text) == [] || old(isLoading)
      ensures sent.None? ==> unchanged(this)
      ensures sent.Some? ==>
        && sent.value == Request(Trim(text), AgentId, sessionId)
        && messages == old(messages) + [UserMessage(sent.value.message, now)]
        && inputValue == "" && isLoading && activeAgentId == Some(AgentId)
        && currentChips == old(currentChips) && sessionId == old(sessionId) && showSampleData == old(showSampleData)
    {
      var trimmed := Trim(text);
      if trimmed == [] || isLoading {
        sent := None;
        return;
      }
      var u := UserMessage(trimmed, now);
      UserMessageWellFormed(text, now);
      AppendWellFormed(messages, u);
      messages := messages + [u];
      inputValue := "";
      isLoading := true;
      activeAgentId := Some(AgentId);
      sent := Some(Request(trimmed, AgentId, sessionId));
    }

    /** The rest of `sendMessage` once the agent call has an outcome. An
        accepted reply appends one assistant message carrying the extracted
        answer, suggestions and sources, and sets the chips to the
        suggestions or the defaults; anything else appends one error message
        and leaves the chips alone. Either way loading ends (the `finally`). */
    method Resolve(outcome: Outcome, now: int)
      requires Valid()
      modifies this
      ensures Valid()
      ensures !isLoading && activeAgentId == None
      ensures Accept(outcome).Some? ==>
        messages == old(messages) + [ReplyMessage(Accept(outcome).value, now)]
        && currentChips == ChipsAfter(Accept(outcome).value)
      ensures Accept(outcome).None? ==>
        messages == old(messages) + [ErrorMessage(now)] && currentChips == old(currentChips)
      ensures inputValue == old(inputValue) && sessionId == old(sessionId) && showSampleData == old(showSampleData)
      ensures Accept(outcome).Some? <==> ShowChips(messages, isLoading)
      ensures Accept(outcome).None? <==> ShowRetry(messages, isLoading)
    {
      var reply := Accept(outcome);
      match reply {
        case Some(r) =>
          AppendWellFormed(messages, ReplyMessage(r, now));
          messages := messages + [ReplyMessage(r, now)];
          currentChips := ChipsAfter(r);
        case None =>
          AppendWellFormed(messages, ErrorMessage(now));
          messages := messages + [ErrorMessage(now)];
      }
      isLoading := false;
      activeAgentId := None;
    }

    /** `retryLastMessage`. Without a user message nothing happens. Otherwise
        every error message is removed, wherever it stands, and the content
        of the last user message goes through `Submit` again, so it is sent
        unchanged unless a reply is still awaited. */
    method Retry(now: int) returns (sent: Option<Request>)
      requires Valid()
      modifies this
      ensures Valid()
      ensures sessionId == old(sessionId) && showSampleData == old(showSampleData) && currentChips == old(currentChips)
      ensures LastUserText(old(messages)).None? ==> sent == None && unchanged(this)
      ensures LastUserText(old(messages)).Some? && old(isLoading) ==>
        sent == None && messages == WithoutErrors(old(messages)) && inputValue == old(inputValue) && isLoading
      ensures LastUserText(old(messages)).Some? && !old(isLoading) ==>
        && sent == Some(Request(LastUserText(old(messages)).value, AgentId, sessionId))
        && messages == WithoutErrors(old(messages)) + [UserMessage(LastUserText(old(messages)).value, now)]
        && inputValue == "" && isLoading
    {
      var last := LastUser(messages);
      if last.None? {
        sent := None;
        return;
      }
      assert WellFormed(messages[last.value]);
      var content := messages[last.value].content.text;
      assert LastUserText(messages) == Some(content);
      TrimOfTrimmed(content);
      WithoutErrorsWellFormed(messages);
      messages := WithoutErrors(messages);
      sent := Submit(content, now);
    }

    /** `handleChipClick(chip)`, which is `sendMessage(chip)`. A chip is
        whatever the reply's suggestion list held; one that is not a string
        has no `trim` method, so `sendMessage` throws a `TypeError` before it
        changes anything, and nothing is sent. */
    method ClickChip(chip: Json, now: int) returns (sent: Option<Request>)
      requires Valid()
      modifies this
      ensures Valid()
      ensures !chip.Str? ==> sent == None && unchanged(this)
      ensures chip.Str? ==> (sent.None? <==> Trim(chip.text) == [] || old(isLoading))
      ensures sent.None? ==> unchanged(this)
      ensures sent.Some? ==>
        && sent.value == Request(Trim(chip.text), AgentId, sessionId)
        && messages == old(messages) + [UserMessage(Trim(chip.text), now)]
        && inputValue == "" && isLoading && activeAgentId == Some(AgentId)
        && currentChips == old(currentChips) && sessionId == old(sessionId)
        && showSampleData == old(showSampleData)
    {
      if chip.Str? {
        sent := Submit(chip.text, now);
      } else {
        sent := None;
      }
    }
  }
}

/** Whole conversations on a fresh page, run through the state machine. */
module ChatScenarios {
  import opened Wrappers
  import opened Text
  import opened Normalizer
  import opened Chat
  import Inline
  import Markdown

  /** While a reply is awaited a second submission is dropped: the
      transcript keeps the one user message and nothing more is sent. */
  method SingleFlight(text: string, other: string, session: Option<string>, now: int)
    returns (first: Option<Request>, second: Option<Request>, transcript: seq<Message>)
    requires Trim(text) != []
    ensures first == Some(Request(Trim(text), AgentId, session))
    ensures second == None
    ensures transcript == [UserMessage(Trim(text), now)]
  {
    var page := new ChatPage(session);
    first := page.Submit(text, now);
    second := page.Submit(other, now + 1);
    transcript := page.messages;
  }

  /** A failed call followed by a retry: the error entry disappears and the
      same text is sent again with the same session, leaving two user
      messages and loading on. */
  method FailThenRetry(text: string, session: Option<string>, now: int)
    returns (first: Option<Request>, retried: Option<Request>, transcript: seq<Message>, loading: bool)
    requires Trim(text) != []
    ensures first.Some? && retried == first
    ensures transcript == [UserMessage(Trim(text), now), UserMessage(Trim(text), now + 2)]
    ensures loading
  {
    var page := new ChatPage(session);
    first := page.Submit(text, now);
    page.Resolve(Threw, now + 1);
    var u := UserMessage(Trim(text), now);
    assert page.messages == [u, ErrorMessage(now + 1)];
    assert LastUser(page.messages) == Some(0);
    assert WithoutErrors(page.messages) == [u] by {
      WithoutErrorsAppend([u], [ErrorMessage(now + 1)]);
      WithoutErrorsSingle(u);
      WithoutErrorsSingle(ErrorMessage(now + 1));
    }
    TrimIdempotent(text);
    assert LastUserText(page.messages) == Some(Trim(text));
    retried := page.Retry(now + 2);
    transcript := page.messages;
    loading := page.isLoading;
  }

  /** "Pricing & Plans" is sent, and a reply whose result's answer is
      `### Plans` / `- Starter` is appended as an assistant message that
      renders as a level-3 heading and a bullet; with no suggestions in the
      reply the chips fall back to the defaults and are shown below the
      (non-empty, so real) transcript. */
  method PricingConversation(session: Option<string>, now: int)
    returns (sent: Option<Request>, last: Message, blocks: Option<seq<Markdown.Block>>, chips: seq<Json>, showChips: bool)
    ensures sent == Some(Request(PricingChip, AgentId, session))
    ensures last.role == Assistant && !last.isError && last.content == Str(PlansAnswer)
    ensures blocks == Some([Markdown.Heading(3, [Inline.Plain("Plans")]), Markdown.ListItem(Markdown.Disc, [Inline.Plain("Starter")])])
    ensures chips == DefaultChips && showChips
  {
    var page := new ChatPage(session);
    PricingChipTrimmed();
    sent := page.Submit(PricingChip, now);
    PlansAccepted();
    page.Resolve(PlansOutcome, now + 1);
    ghost var reply := Reply(Str(PlansAnswer), [], []);
    assert page.messages[|page.messages| - 1] == ReplyMessage(reply, now + 1);
    last := page.messages[|page.messages| - 1];
    assert last.content == Str(PlansAnswer);
    PlansRendered();
    blocks := Markdown.RenderMarkdown(last.content.text);
    chips := page.currentChips;
    showChips := ShowChips(page.messages, page.isLoading);
  }

  /** The chip "Pricing & Plans" is sent as it is. */
  lemma PricingChipTrimmed()
    ensures Trim(PricingChip) == PricingChip != []
  {
    assert !IsSpace(PricingChip[0]) && !IsSpace(PricingChip[|PricingChip| - 1]);
    TrimOfTrimmed(PricingChip);
  }
}
