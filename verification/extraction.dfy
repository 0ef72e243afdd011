/**
 * Extracting one contract: choosing the MIME type the file is sent with,
 * cleaning the model's reply (surrounding whitespace, a markdown code fence)
 * and attaching the identifier and file URI to the decoded fields.
 */
module Extraction {
  import opened Wrappers
  import opened Text
  import opened ContractSchema

  const PdfMime: string := "application/pdf"
  const TextMime: string := "text/plain"
  const HtmlMime: string := "text/html"

  /** The MIME type a file is sent to the model with, chosen by its case-insensitive suffix. */
  function MimeType(path: string): (r: string)
    ensures r == PdfMime <==> EndsWith(Lower(path), ".pdf")
    ensures r == TextMime <==> EndsWith(Lower(path), ".txt")
    ensures r == HtmlMime <==> !EndsWith(Lower(path), ".pdf") && !EndsWith(Lower(path), ".txt")
  {
    EndsWithLastChar(Lower(path), ".pdf", ".txt");
    var lower := Lower(path);
    if EndsWith(lower, ".pdf") then PdfMime
    else if EndsWith(lower, ".txt") then TextMime
    else HtmlMime
  }

  /** HTML documents, under either suffix, are sent as `text/html`. */
  lemma HtmlFilesAreHtml(path: string)
    requires EndsWith(Lower(path), ".htm") || EndsWith(Lower(path), ".html")
    ensures MimeType(path) == HtmlMime
  {
    EndsWithLastChar(Lower(path), ".htm", ".pdf");
    EndsWithLastChar(Lower(path), ".htm", ".txt");
    EndsWithLastChar(Lower(path), ".html", ".pdf");
    EndsWithLastChar(Lower(path), ".html", ".txt");
  }

  /** The markdown code fence the model may wrap its JSON in. */
  const Fence: string := "```"

  /** The text without its first and last lines (`"\n".join(text.split("\n")[1:-1])`). */
  function DropOuterLines(text: string): string {
    var lines := Split(text, '\n');
    if |lines| < 2 then "" else Join('\n', lines[1..|lines| - 1])
  }

  /** A reply that both starts and ends with a fence loses its first and last lines; any other is kept. */
  function StripFence(text: string): string {
    if StartsWith(text, Fence) && EndsWith(text, Fence) then DropOuterLines(text) else text
  }

  /** The reply text as it is handed to the JSON decoder. */
  function CleanReply(raw: string): string {
    StripFence(Strip(raw))
  }

  /** With two or more newlines, dropping the outer lines keeps exactly the text between the first and last newline. */
  lemma DropOuterLinesBetween(text: string, i: int, j: int)
    requires IsFirstNewline(text, i) && IsLastNewline(text, j) && i < j
    ensures DropOuterLines(text) == text[i + 1..j]
  {
    var t := text[i + 1..];
    var ulines := Split(t, '\n');
    SplitAtNewline(text, i);
    LastNewlineOfRest(text, i, j);
    JoinAllButLastLine(t, j - i - 1);
    MiddleOfCons(text[..i], ulines);
    assert DropOuterLines(text) == Join('\n', ulines[..|ulines| - 1]);
  }

  /** The last newline of a text is also the last newline of what follows its first newline. */
  lemma LastNewlineOfRest(text: string, i: int, j: int)
    requires 0 <= i < j && IsLastNewline(text, j)
    ensures IsLastNewline(text[i + 1..], j - i - 1)
    ensures text[i + 1..][..j - i - 1] == text[i + 1..j]
  {
  }

  /** With at most one newline, nothing is left once the outer lines are dropped. */
  lemma DropOuterLinesFewNewlines(text: string)
    requires forall i, j :: 0 <= i < j < |text| && text[i] == '\n' ==> text[j] != '\n'
    ensures DropOuterLines(text) == ""
  {
    var i := IndexOf(text, '\n');
    if i < |text| {
      SplitAtNewline(text, i);
      NoSeparatorIndex(text[i + 1..], '\n');
      assert |Split(text, '\n')| == 2;
    }
  }

  /** A lone fence becomes the empty text. */
  lemma LoneFenceIsEmpty()
    ensures StripFence(Fence) == ""
  {
    DropOuterLinesFewNewlines(Fence);
  }

  /**
   * A reply fenced as "```" + tag, a newline, the body, a newline and a
   * closing "```" gives back exactly the body, whatever newlines it holds.
   */
  lemma FencedReply(tag: string, body: string)
    requires '\n' !in tag
    ensures StripFence(Fence + tag + "\n" + body + "\n" + Fence) == body
  {
    var text := Fence + tag + "\n" + body + "\n" + Fence;
    var i := |Fence| + |tag|;
    var j := i + 1 + |body|;
    assert |text| == j + 4;
    assert text[..3] == Fence && text[|text| - 3..] == Fence;
    assert forall k :: 0 <= k < |tag| ==> text[3 + k] == tag[k];
    assert IsFirstNewline(text, i) by {
      forall k | 0 <= k < i
        ensures text[k] != '\n'
      {
        if k >= 3 {
          assert text[k] == tag[k - 3];
        }
      }
    }
    assert IsLastNewline(text, j);
    DropOuterLinesBetween(text, i, j);
    assert text[i + 1..j] == body;
  }

  /** What the model is asked with: the file's URI and its MIME type. */
  datatype Request = Request(fileUri: string, mimeType: string)

  /** The model's answer: its text, or an error raised by the call. */
  datatype Reply = Replied(text: string) | CallFailed

  /**
   * Extracts one contract. `service` stands for the model call, `decode` for
   * JSON parsing plus schema validation (None when either raises), and
   * `contractId` for the freshly generated UUID. Any failure yields None.
   */
  function ExtractContract(
    path: string,
    service: Request -> Reply,
    decode: string -> Option<ContractExtraction>,
    contractId: string): (r: Option<Contract>)
    ensures var reply := service(Request(path, MimeType(path)));
      r.Some? <==> reply.Replied? && decode(CleanReply(reply.text)).Some?
    ensures r.Some? ==> r.value.filePath == path && r.value.contractId == contractId
    ensures var reply := service(Request(path, MimeType(path)));
      reply.Replied? && r.Some? ==> decode(CleanReply(reply.text)) == Some(r.value.fields)
  {
    match service(Request(path, MimeType(path)))
    case CallFailed => None
    case Replied(text) =>
      match decode(CleanReply(text))
      case None => None
      case Some(fields) => Some(Contract(fields, contractId, path))
  }
}
