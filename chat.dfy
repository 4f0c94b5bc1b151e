/** The assistant panel: rendering a message's text line by line, and the
    send action with its guard. */
module AIChat {
  import Text

  datatype ChatRole = User | Assistant

  /** A chat message; `timestamp` is the clock reading it was created at. */
  datatype ChatMessage = ChatMessage(id: string, role: ChatRole, content: string, timestamp: int)

  /** A run of text, bold or plain. */
  datatype Segment = Segment(text: string, bold: bool)

  /** What `MessageContent` renders for one line. */
  datatype Block =
    | Hidden                          // a code fence line: nothing
    | Bullet(text: string)            // a bullet mark and the rest of the line
    | Rich(segments: seq<Segment>)    // a paragraph with bold runs
    | Paragraph(text: string)         // a plain paragraph
    | Break                           // an empty line: a line break

  const Fence: string := "```"
  const BulletMark: string := "\U{2022} "
  const BoldMark: string := "**"

  /** The pieces of a split, every odd-indexed one bold. */
  function Alternating(parts: seq<string>): (r: seq<Segment>)
    ensures |r| == |parts|
    ensures forall j :: 0 <= j < |r| ==> r[j].text == parts[j] && (r[j].bold <==> j % 2 == 1)
  {
    seq(|parts|, j requires 0 <= j < |parts| => Segment(parts[j], j % 2 == 1))
  }

  function Texts(segments: seq<Segment>): (r: seq<string>)
    ensures |r| == |segments| && forall j :: 0 <= j < |r| ==> r[j] == segments[j].text
  {
    seq(|segments|, j requires 0 <= j < |segments| => segments[j].text)
  }

  /** The rendering of one line, branches tried in the source's order: code
      fence, bullet, bold, then a paragraph or, for an empty line, a break. */
  function ClassifyLine(line: string): (b: Block)
    ensures b.Hidden? <==> Text.StartsWith(line, Fence)
    ensures b.Bullet? <==> !Text.StartsWith(line, Fence) && Text.StartsWith(line, BulletMark)
    ensures b.Bullet? ==> b.text == Text.Slice(line, 2)
    ensures b.Rich? <==> !Text.StartsWith(line, Fence) && !Text.StartsWith(line, BulletMark) && Text.Contains(line, BoldMark)
    ensures b.Rich? ==> Texts(b.segments) == Text.Split(line, BoldMark)
    ensures b.Rich? ==> |b.segments| > 1 && Text.Concat(Texts(b.segments)) == Text.RemoveAll(line, BoldMark)
    ensures b.Rich? ==> forall j :: 0 <= j < |b.segments| ==> (b.segments[j].bold <==> j % 2 == 1)
    ensures b.Paragraph? ==> b.text == line && line != ""
    ensures b.Break? <==> line == ""
  {
    if Text.StartsWith(line, Fence) then Hidden
    else if Text.StartsWith(line, BulletMark) then Bullet(Text.Slice(line, 2))
    else if Text.Contains(line, BoldMark) then
      var parts := Text.Split(line, BoldMark);
      Text.SplitCountsOccurrence(line, BoldMark);
      Text.ConcatSplit(line, BoldMark);
      assert Texts(Alternating(parts)) == parts;
      Rich(Alternating(parts))
    else if line != "" then Paragraph(line)
    else Break
  }

  /** `MessageContent`: one block per line of `content.split("\n")`. */
  function MessageContent(content: string): (r: seq<Block>)
    ensures |r| == |Text.Split(content, "\n")|
    ensures forall i :: 0 <= i < |r| ==> r[i] == ClassifyLine(Text.Split(content, "\n")[i])
  {
    var lines := Text.Split(content, "\n");
    seq(|lines|, i requires 0 <= i < |lines| => ClassifyLine(lines[i]))
  }

  /** The lines rendered are exactly the text: they join back into it with
      newlines, and text without a newline renders as a single block. */
  lemma MessageContentLines(content: string)
    ensures Text.Join(Text.Split(content, "\n"), "\n") == content
    ensures !Text.Contains(content, "\n") ==> MessageContent(content) == [ClassifyLine(content)]
  {
    Text.JoinSplit(content, "\n");
    Text.SplitCountsOccurrence(content, "\n");
  }

  /** A string lacking the first character of `p` does not contain `p`. */
  lemma LacksFirstChar(s: string, p: string)
    requires |p| > 0 && forall i :: 0 <= i < |s| ==> s[i] != p[0]
    ensures !Text.Contains(s, p)
  {
    forall i: nat | i <= |s| ensures !Text.OccursAt(s, p, i) {
      if i + |p| <= |s| {
        assert s[i..i + |p|][0] == s[i];
      }
    }
  }

  lemma ClassifyExamples()
    ensures ClassifyLine("```ts") == Hidden
    ensures ClassifyLine("\U{2022} Debugging issues") == Bullet("Debugging issues")
    ensures ClassifyLine("") == Break
  {
    assert !Text.StartsWith("\U{2022} Debugging issues", Fence) by {
      assert "\U{2022} Debugging issues"[..3][0] == '\U{2022}';
    }
    assert Text.StartsWith("\U{2022} Debugging issues", BulletMark);
  }

  /** A bold run: the pieces of the split alternate plain and bold. */
  lemma ClassifyBoldExample()
    ensures ClassifyLine("a**b") == Rich([Segment("a", false), Segment("b", true)])
  {
    var line := "a**b";
    assert !Text.StartsWith(line, Fence) by {
      assert line[..3][0] == 'a';
    }
    assert !Text.StartsWith(line, BulletMark) by {
      assert line[..2][0] == 'a';
    }
    assert Text.OccursAt(line, BoldMark, 1);
    assert Text.Split("b", BoldMark) == ["b"];
    assert "**b"[..2] == BoldMark && "**b"[2..] == "b";
    assert Text.Split("**b", BoldMark) == ["", "b"];
    assert line[..2] != BoldMark && line[1..] == "**b";
    var rest := Text.Split(line[1..], BoldMark);
    assert [line[0]] + rest[0] == "a" && rest[1..] == ["b"];
    assert Text.Split(line, BoldMark) == ["a", "b"];
    assert Alternating(["a", "b"]) == [Segment("a", false), Segment("b", true)];
  }

  lemma ClassifyParagraphExample()
    ensures ClassifyLine("What next?") == Paragraph("What next?")
  {
    var line := "What next?";
    assert !Text.StartsWith(line, Fence) by {
      assert line[..3][0] == 'W';
    }
    assert !Text.StartsWith(line, BulletMark) by {
      assert line[..2][0] == 'W';
    }
    LacksFirstChar(line, BoldMark);
  }

  /** The guard of `handleSend`: something other than white space was typed
      and no reply is pending. */
  predicate MaySend(input: string, isLoading: bool)
    ensures MaySend(input, isLoading) <==> Text.Trim(input) != "" && !isLoading
  {
    Text.TrimEmptyIffBlank(input);
    !Text.IsBlank(input) && !isLoading
  }

  /** The greeting the panel opens with. */
  const Greeting: string :=
    "Hello! I'm your AI coding assistant. I can help you with:\n\n\U{2022} Writing and explaining code\n\U{2022} Debugging issues\n\U{2022} Refactoring suggestions\n\U{2022} Answering questions about your project\n\nWhat would you like to work on?"

  /** The placeholder reply the timer delivers. */
  const Reply: string :=
    "I'm processing your request. In the full implementation, this would connect to the Gemini 2.0 Flash API to provide intelligent responses based on your code and context."

  /** The panel's state. */
  class ChatPanel {
    var messages: seq<ChatMessage>
    var input: string
    var isLoading: bool

    constructor (now: int)
      ensures messages == [ChatMessage("1", Assistant, Greeting, now)]
      ensures input == "" && !isLoading
    {
      messages := [ChatMessage("1", Assistant, Greeting, now)];
      input := "";
      isLoading := false;
    }

    /** Typing into the text area. */
    method SetInput(value: string)
      modifies this
      ensures input == value && messages == old(messages) && isLoading == old(isLoading)
    {
      input := value;
    }

    /** `handleSend`: nothing when the guard fails; otherwise the typed text
      becomes a user message, the input is cleared and a reply is awaited. */
    method HandleSend(now: nat)
      modifies this
      ensures !MaySend(old(input), old(isLoading)) ==> unchanged(this)
      ensures MaySend(old(input), old(isLoading)) ==>
        && messages == old(messages) + [ChatMessage(Text.DecimalString(now), User, old(input), now)]
        && input == "" && isLoading
    {
      Text.TrimEmptyIffBlank(input);
      if Text.Trim(input) == "" || isLoading {
        return;
      }
      var userMessage := ChatMessage(Text.DecimalString(now), User, input, now);
      messages := messages + [userMessage];
      input := "";
      isLoading := true;
    }

    /** The timer callback: the placeholder reply arrives. */
    method ReceiveReply(now: nat)
      modifies this
      ensures messages == old(messages) + [ChatMessage(Text.DecimalString(now + 1), Assistant, Reply, now)]
      ensures !isLoading && input == old(input)
    {
      messages := messages + [ChatMessage(Text.DecimalString(now + 1), Assistant, Reply, now)];
      isLoading := false;
    }
  }

  /** A successful send closes the guard: a second send before the reply
      arrives adds no message, so only the first one is recorded. */
  method SendTwice(p: ChatPanel, now: nat)
    requires MaySend(p.input, p.isLoading)
    modifies p
    ensures p.messages == old(p.messages) + [ChatMessage(Text.DecimalString(now), User, old(p.input), now)]
    ensures p.isLoading && p.input == ""
  {
    p.HandleSend(now);
    p.HandleSend(now + 1);
  }
}
