/**
 * components/ChatUI.js: the two decisions of the chat widget that are not
 * DOM or speech code. `sendMessage` sends the system message and a window
 * of the six most recent messages after it; `sendToAPI` guesses a course
 * type from the user's words and adds it to the request only when it
 * found one. The React message list is passed in and handed back as a value.
 */
module ChatClient {
  import opened Wrappers
  import opened Strings
  import opened Courses

  datatype Role = System | User | Assistant

  datatype Message = Message(role: Role, content: string)

  /** The number of messages after the first that the typed path sends. */
  const Recent: nat := 6

  /**
   * Lines 97-99: `allMsgs[0]` followed by `allMsgs.slice(1).slice(-6)`;
   * `slice(-6)` of a shorter list is the whole list.
   */
  function PayloadWindow(all: seq<Message>): (p: seq<Message>)
    requires |all| >= 1
    ensures |p| == 1 + (if |all| - 1 < Recent then |all| - 1 else Recent)
    ensures |p| <= Recent + 1
    ensures p[0] == all[0]
    ensures p[1..] == all[|all| - (|p| - 1)..]
  {
    var rest := all[1..];
    var from := if |rest| < Recent then 0 else |rest| - Recent;
    [all[0]] + rest[from..]
  }

  /** With the newest message last, the window ends with it; nothing at the end is lost. */
  lemma PayloadEndsWithNewest(all: seq<Message>)
    requires |all| >= 1
    ensures var p := PayloadWindow(all); p[|p| - 1] == all[|all| - 1]
  {
    var p := PayloadWindow(all);
    if |all| > 1 {
      assert p[|p| - 1] == p[1..][|p| - 2];
    }
  }

  /** A short history is sent whole. */
  lemma ShortHistoryWhole(all: seq<Message>)
    requires 1 <= |all| <= Recent + 1
    ensures PayloadWindow(all) == all
  {
    var p := PayloadWindow(all);
    assert p == [p[0]] + p[1..];
    assert all == [all[0]] + all[1..];
  }

  /** What one typed send produces: the new list kept in the UI and the list sent. */
  datatype Sent = Sent(history: seq<Message>, payload: seq<Message>, text: string)

  /**
   * Lines 87-103: the input is trimmed; a blank one sends nothing. Otherwise
   * a user message is appended to the list, and the window of the new list
   * goes to `sendToAPI` with the trimmed text.
   */
  function SendMessage(messages: seq<Message>, input: string): (r: Option<Sent>)
    ensures r.None? <==> Trim(input) == ""
    ensures r.Some? ==>
      r.value.text == Trim(input) &&
      r.value.history == messages + [Message(User, Trim(input))] &&
      r.value.payload == PayloadWindow(r.value.history)
  {
    var value := Trim(input);
    if value == "" then None
    else
      var allMsgs := messages + [Message(User, value)];
      Some(Sent(allMsgs, PayloadWindow(allMsgs), value))
  }

  /**
   * For the widget's own list, whose first element is the system prompt,
   * the payload keeps the prompt first, sends at most seven messages and
   * ends with the message just typed.
   */
  lemma TypedPayload(messages: seq<Message>, input: string)
    requires |messages| >= 1 && messages[0].role == System
    requires Trim(input) != ""
    ensures var s := SendMessage(messages, input).value;
      s.payload[0] == messages[0] && s.payload[0].role == System &&
      |s.payload| <= 7 &&
      s.payload[|s.payload| - 1] == Message(User, Trim(input))
  {
    var s := SendMessage(messages, input).value;
    PayloadEndsWithNewest(s.history);
  }

  /**
   * Lines 223-228: the recognised transcript is appended as it is, with no
   * trim and no blank check, and the whole new list is sent.
   */
  function VoiceSend(messages: seq<Message>, transcript: string): (r: Sent)
    ensures r.history == messages + [Message(User, transcript)]
    ensures r.text == transcript
  {
    var updated := messages + [Message(User, transcript)];
    Sent(updated, updated, transcript)
  }

  /** The voice path has no window: its payload grows with the conversation, beyond seven messages. */
  lemma VoiceSendsEverything(messages: seq<Message>, transcript: string)
    ensures VoiceSend(messages, transcript).payload == VoiceSend(messages, transcript).history
    ensures |VoiceSend(messages, transcript).payload| == |messages| + 1
    ensures |messages| > Recent ==> |VoiceSend(messages, transcript).payload| > |PayloadWindow(messages + [Message(User, transcript)])|
  {
  }

  // ---------------------------------------------------------------------
  // Lines 108-115 and 161-163: the course type read from the user's words

  const Positives: seq<string> := ["only refresher", "just refresher", "refresher courses"]
  const Negatives: seq<string> := ["not refresher", "without refresher", "no refresher"]

  /** Some phrase of `phrases` occurs in `s`. */
  predicate AnyIn(s: string, phrases: seq<string>) {
    exists i :: 0 <= i < |phrases| && Contains(s, phrases[i])
  }

  /** The lower-cased text is searched for a positive phrase first, then for a negation. */
  function DetectType(text: string): (r: Option<CourseType>)
    ensures r == Some(Refresher) <==> AnyIn(Lower(text), Positives)
    ensures r == Some(Standard) <==> !AnyIn(Lower(text), Positives) && AnyIn(Lower(text), Negatives)
  {
    var lcText := Lower(text);
    if Contains(lcText, Positives[0]) || Contains(lcText, Positives[1]) || Contains(lcText, Positives[2]) then
      Some(Refresher)
    else if Contains(lcText, Negatives[0]) || Contains(lcText, Negatives[1]) || Contains(lcText, Negatives[2]) then
      Some(Standard)
    else None
  }

  /** Detection ignores case: lower-casing the text first changes nothing. */
  lemma DetectIgnoresCase(text: string)
    ensures DetectType(Lower(text)) == DetectType(text)
  {
    LowerNoUpper(text);
    LowerFixed(Lower(text));
  }

  /** A text with both a positive phrase and a negation counts as a refresher request. */
  lemma NoRefresherCourses()
    ensures DetectType("no refresher courses") == Some(Refresher)
  {
    var s := "no refresher courses";
    assert NoUpper(s);
    LowerFixed(s);
    assert s == "no " + "refresher courses" + "";
    ContainsMiddle("no ", "refresher courses", "");
  }

  /** A bare negation, in any case, is a standard-course request. */
  lemma NoRefresher()
    ensures DetectType("no refresher") == Some(Standard)
    ensures DetectType("NO REFRESHER") == Some(Standard)
  {
    var s := "no refresher";
    assert NoUpper(s);
    LowerFixed(s);
    NotContainsLonger(s, Positives[0]);
    NotContainsLonger(s, Positives[1]);
    NotContainsLonger(s, Positives[2]);
    ContainsSelf(s);
    assert Lower("NO REFRESHER") == s;
    DetectIgnoresCase("NO REFRESHER");
  }

  /** The request body: the messages, and a `type` field only when a type was detected. */
  datatype RequestBody = RequestBody(messages: seq<Message>, typeField: Option<string>)

  function BuildRequest(text: string, msgList: seq<Message>): (b: RequestBody)
    ensures b.messages == msgList
    ensures b.typeField.None? <==> !AnyIn(Lower(text), Positives) && !AnyIn(Lower(text), Negatives)
    ensures b.typeField.Some? ==> b.typeField.value == "refresher" || b.typeField.value == "standard"
  {
    var detectedType := DetectType(text);
    RequestBody(msgList, if detectedType.Some? then Some(TypeName(detectedType.value)) else None)
  }

  /** The type sent is "refresher" exactly when a positive phrase occurs. */
  lemma RequestTypeRefresher(text: string, msgList: seq<Message>)
    ensures BuildRequest(text, msgList).typeField == Some("refresher") <==> AnyIn(Lower(text), Positives)
  {
    var d := DetectType(text);
    if d == Some(Standard) {
      assert TypeName(Standard) == "standard";
    }
  }
}
