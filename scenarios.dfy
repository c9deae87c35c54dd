/** Three sessions with the component, written against the contracts of Chat
    alone: one request that returns an html block, one whose fetch fails, and
    one submission of a blank input. */
module Scenarios {
  import opened Wrappers
  import opened Strings
  import Extraction
  import opened Chat

  /** The page the successful session receives has no line break, so it
      comes back whole from its html block. */
  lemma CounterPage()
    ensures Extraction.Extract(Extraction.HtmlOpen + "<p>counter</p>" + Extraction.HtmlClose) == "<p>counter</p>"
  {
    var page := "<p>counter</p>";
    assert forall k :: 0 <= k < |page| ==> page[k] != '\n';
    Extraction.NoNewlineNoCloser(page);
    Extraction.HtmlRoundTrip(page);
  }

  /** Key "k1", prompt "build a counter", and a reply carrying an html block:
      two turns, and the block becomes the preview. */
  method CounterSession() {
    var app := new BoltClone();
    app.apiKey := "k1";
    app.input := "build a counter";
    AcceptsText(app.input, app.apiKey);
    var page := "<p>counter</p>";
    CounterPage();
    var reply := Response(200, Extraction.HtmlOpen + page + Extraction.HtmlClose);
    var request := app.SendMessage(reply);
    assert app.messages == [Turn(User, "build a counter"), Turn(Assistant, reply.text)];
    assert request.Some?;
    assert app.generatedCode == page;
    assert app.input == "" && !app.isLoading;
  }

  /** The same prompt when the fetch itself fails: two turns, the second the
      error notice, and the preview untouched. */
  method FailedSession() {
    var app := new BoltClone();
    app.apiKey := "k1";
    app.input := "build a counter";
    AcceptsText(app.input, app.apiKey);
    var request := app.SendMessage(Thrown("Failed to fetch"));
    assert app.messages == [Turn(User, "build a counter"), Turn(Assistant, ErrorNotice("Failed to fetch"))];
    assert app.generatedCode == "" && !app.isLoading;
  }

  /** An input of spaces and a newline is refused and changes nothing. */
  method BlankInputRefused() {
    var app := new BoltClone();
    app.apiKey := "k1";
    app.input := " \n ";
    assert IsBlank(app.input) by {
      assert IsWhitespace(app.input[0]) && IsWhitespace(app.input[1]) && IsWhitespace(app.input[2]);
    }
    var request := app.SendMessage(Response(200, "ignored"));
    assert request == None;
    assert app.messages == [] && app.input == " \n " && app.generatedCode == "";
  }
}
