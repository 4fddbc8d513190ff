/** The add-task form: its submit, which emits a new To Do draft when the
    title is not blank and then clears the form, and its subtask suggestion,
    which appends a formatted block of suggestions to the description. */
module AddForm {
  import opened Wrappers
  import opened Text
  import opened Types

  /** The form's two fields. */
  datatype Form = Form(title: string, description: string)

  const EmptyForm := Form("", "")

  /** What a submit leaves behind: the form fields, and the draft handed to
      the app, if any. */
  datatype Submitted = Submitted(form: Form, draft: Option<Draft>)

  /** `handleSubmit`: a blank title emits nothing and keeps the fields; any
      other title emits a To Do draft with the untrimmed title and the
      description, then empties both fields. */
  function Submit(f: Form): (r: Submitted)
    ensures IsBlank(f.title) ==> r.draft.None? && r.form == f
    ensures !IsBlank(f.title) ==>
      && r.draft == Some(Draft(f.title, f.description, ToDo))
      && r.form == EmptyForm
  {
    if Trim(f.title) == "" then Submitted(f, None)
    else Submitted(EmptyForm, Some(Draft(f.title, f.description, ToDo)))
  }

  /** The suggestion button's guard, `if (!title)`: only the empty title is
      refused. */
  predicate SuggestAllowed(f: Form) {
    f.title != ""
  }

  /** A title made only of spaces passes the suggestion guard yet is refused
      by submit: the two guards differ. */
  lemma GuardsDiffer(f: Form)
    requires f.title != "" && IsBlank(f.title)
    ensures SuggestAllowed(f)
    ensures Submit(f).draft.None?
  {
  }

  const Header := "Suggested Subtasks:"

  /** `subtasks.map(s => `- ${s}`)`: one bullet line per suggestion. */
  function Bullets(subs: seq<string>): (r: seq<string>)
    ensures |r| == |subs|
  {
    if subs == [] then [] else ["- " + subs[0]] + Bullets(subs[1..])
  }

  /** The description after suggestions arrive. No suggestions leave it as it
      was; otherwise the header and the newline-joined bullets are appended,
      after a blank line when the description was not empty. The old
      description is always kept as a prefix. */
  function AppendSuggestions(prev: string, subs: seq<string>): (r: string)
    ensures subs == [] ==> r == prev
    ensures prev <= r
    ensures subs != [] && prev == "" ==> r == Header + "\n" + Join(Bullets(subs), "\n")
    ensures subs != [] && prev != "" ==> r == prev + "\n\n" + Header + "\n" + Join(Bullets(subs), "\n")
  {
    if |subs| > 0 then
      var text := Join(Bullets(subs), "\n");
      if prev != "" then prev + "\n\n" + Header + "\n" + text
      else Header + "\n" + text
    else
      prev
  }

  /** `handleSuggestSubtasks` once the service has answered with `subs` (an
      empty list also stands for every failure, which the service reports as
      no suggestions): the title never changes, and the description changes
      only when the guard passes. */
  function Suggest(f: Form, subs: seq<string>): (r: Form)
    ensures r.title == f.title
    ensures !SuggestAllowed(f) ==> r == f
    ensures SuggestAllowed(f) ==> r.description == AppendSuggestions(f.description, subs)
    ensures subs == [] ==> r == f
  {
    if !SuggestAllowed(f) then f
    else Form(f.title, AppendSuggestions(f.description, subs))
  }

  /** `Join` with a separator in front of at least one more piece. */
  lemma JoinCons(x: string, rest: seq<string>, sep: string)
    requires |rest| > 0
    ensures Join([x] + rest, sep) == x + sep + Join(rest, sep)
  {
    assert ([x] + rest)[1..] == rest;
  }

  /** No piece of the list contains a newline. */
  predicate SingleLines(parts: seq<string>) {
    forall k :: 0 <= k < |parts| ==> '\n' !in parts[k]
  }

  /** The bullet of each suggestion is a dash and a space before it. */
  lemma {:induction false} BulletAt(subs: seq<string>, i: nat)
    requires i < |subs|
    ensures Bullets(subs)[i] == "- " + subs[i]
    decreases |subs|
  {
    if i > 0 {
      BulletAt(subs[1..], i - 1);
    }
  }

  /** The lines of the appended block: the header, then one bullet per
      suggestion. */
  function BlockLines(subs: seq<string>): seq<string> {
    [Header] + Bullets(subs)
  }

  /** Bullets of single-line suggestions are single lines, and so is the
      header. */
  lemma BulletsSingleLines(subs: seq<string>)
    requires SingleLines(subs)
    ensures SingleLines(BlockLines(subs))
  {
    var lines := BlockLines(subs);
    forall k | 0 <= k < |lines| ensures '\n' !in lines[k] {
      if k > 0 {
        var x := subs[k - 1];
        BulletAt(subs, k - 1);
        assert lines[k] == ['-', ' '] + x;
        assert forall c :: c in lines[k] ==> c == '-' || c == ' ' || c in x;
      } else {
        assert forall c :: c in Header ==> c != '\n';
      }
    }
  }

  /** Two empty pieces joined in front of a block are two newlines. */
  lemma BlankLinesJoin(block: string, outer: string, inner: string)
    requires inner == "" + "\n" + block
    requires outer == "" + "\n" + inner
    ensures outer == "\n\n" + block
  {
  }

  /** Regrouping of the appended description around the old one. */
  lemma Reassociate(prev: string, header: string, text: string, r: string)
    requires r == prev + "\n\n" + header + "\n" + text
    ensures r[|prev|..] == "\n\n" + (header + "\n" + text)
  {
    assert r == prev + ("\n\n" + (header + "\n" + text));
  }

  /** The appended block is lossless: split at newlines, the text after the
      old description reads back as the blank separator lines (when there was
      a description), the header, and one bullet per suggestion, provided no
      suggestion spans several lines. */
  lemma SuggestionLines(prev: string, subs: seq<string>)
    requires |subs| > 0
    requires SingleLines(subs)
    ensures prev == "" ==> Split(AppendSuggestions(prev, subs), '\n') == BlockLines(subs)
    ensures prev != "" ==> Split(AppendSuggestions(prev, subs)[|prev|..], '\n') == ["", ""] + BlockLines(subs)
  {
    var lines := BlockLines(subs);
    BulletsSingleLines(subs);
    if prev == "" {
      LinesWithoutDescription(subs, lines);
    } else {
      LinesAfterDescription(prev, subs, lines);
    }
  }

  /** The block is the header and the bullets joined by newlines. */
  lemma BlockIsJoin(subs: seq<string>, lines: seq<string>)
    requires |subs| > 0
    requires lines == BlockLines(subs)
    ensures Header + "\n" + Join(Bullets(subs), "\n") == Join(lines, "\n")
  {
    JoinCons(Header, Bullets(subs), "\n");
  }

  /** The case of an empty description: the whole result is the block. */
  lemma LinesWithoutDescription(subs: seq<string>, lines: seq<string>)
    requires |subs| > 0
    requires lines == BlockLines(subs) && SingleLines(lines)
    ensures Split(AppendSuggestions("", subs), '\n') == lines
  {
    BlockIsJoin(subs, lines);
    SplitJoined(AppendSuggestions("", subs), lines);
  }

  /** A newline-joined list of single lines splits back into that list. */
  lemma SplitJoined(r: string, lines: seq<string>)
    requires |lines| > 0 && SingleLines(lines)
    requires r == Join(lines, "\n")
    ensures Split(r, '\n') == lines
  {
    SplitJoin(lines, '\n');
  }

  /** The case of a non-empty description: after it come two empty lines and
      then the block. */
  lemma LinesAfterDescription(prev: string, subs: seq<string>, lines: seq<string>)
    requires |subs| > 0 && prev != ""
    requires lines == BlockLines(subs) && SingleLines(lines)
    ensures Split(AppendSuggestions(prev, subs)[|prev|..], '\n') == ["", ""] + lines
  {
    var r := AppendSuggestions(prev, subs);
    var text := Join(Bullets(subs), "\n");
    Reassociate(prev, Header, text, r);
    BlockIsJoin(subs, lines);
    BlockAfterBlankLines(r[|prev|..], lines);
  }

  /** Two newlines in front of a joined block split into two empty lines
      followed by the block's lines. */
  lemma BlockAfterBlankLines(tail: string, lines: seq<string>)
    requires |lines| > 0 && SingleLines(lines)
    requires tail == "\n\n" + Join(lines, "\n")
    ensures Split(tail, '\n') == ["", ""] + lines
  {
    var all := ["", ""] + lines;
    JoinCons("", lines, "\n");
    JoinCons("", [""] + lines, "\n");
    assert all == [""] + ([""] + lines);
    BlankLinesJoin(Join(lines, "\n"), Join(all, "\n"), Join([""] + lines, "\n"));
    assert SingleLines(all) by {
      forall k | 0 <= k < |all| ensures '\n' !in all[k] {
        if k >= 2 { assert all[k] == lines[k - 2]; }
      }
    }
    SplitJoined(tail, all);
  }
}
