/** Markdown files with YAML front matter (ota_core/storage/markdown.py): the text layer, with
    the YAML codec as a parameter, and the write that replaces a file. */
module Markdown {
  import opened Outcomes
  import opened Text

  const FENCE := "---\n"
  const CLOSING := "\n---\n"

  /** What the YAML loader makes of a text: nothing (or an empty mapping), a non-empty mapping,
      some other value, or an error. */
  datatype Parsed<F> = Empty | Mapping(frontmatter: F) | OtherValue | Malformed

  datatype ReadError = NoSuchFile | NotAMapping | BadYaml

  /** The front matter is None when it is the empty mapping. */
  datatype Document<F> = Document(frontmatter: Option<F>, body: string)

  /** Universal newlines: text files are read with every line ending turned into "\n". */
  function Universal(s: string): string {
    if s == [] then []
    else if s[0] != '\r' then [s[0]] + Universal(s[1..])
    else if |s| > 1 && s[1] == '\n' then "\n" + Universal(s[2..])
    else "\n" + Universal(s[1..])
  }

  predicate StartsWithFence(text: string) {
    |FENCE| <= |text| && text[..|FENCE|] == FENCE
  }

  /** Where the fence that closes the front matter begins, at its newline; -1 without one. */
  function FenceEnd(text: string): (r: int)
    requires StartsWithFence(text)
    ensures r == -1 || |FENCE| <= r <= |text| - |CLOSING|
  {
    Find(text, CLOSING, |FENCE|)
  }

  /** The text begins with a block between two fences. */
  predicate Fenced(text: string) {
    StartsWithFence(text) && FenceEnd(text) != -1
  }

  function Parse<F>(load: string -> Parsed<F>, text: string): Result<Document<F>, ReadError> {
    if !Fenced(text) then Ok(Document(None, text))
    else
      var end := FenceEnd(text);
      var body := text[end + |CLOSING|..];
      match load(text[|FENCE|..end])
      case Empty => Ok(Document(None, body))
      case Mapping(f) => Ok(Document(Some(f), body))
      case OtherValue => Err(NotAMapping)
      case Malformed => Err(BadYaml)
  }

  function Render<F>(dump: F -> string, doc: Document<F>): string {
    match doc.frontmatter
    case None => doc.body
    case Some(f) => FENCE + (dump(f) + (FENCE + doc.body))
  }

  // ---------- Files ----------

  /** What a file system call can do to a write. */
  datatype Fate = Completes | FailsWriting(written: nat) | FailsReplacing

  class Folder {
    var files: map<string, string>

    constructor ()
      ensures files == map[]
    {
      files := map[];
    }

    /** The file is replaced whole, or nothing changes and no temporary file is left. */
    method WriteMarkdown<F>(path: string, temp: string, dump: F -> string, doc: Document<F>, fate: Fate)
      returns (ok: bool)
      requires temp != path && temp !in files
      modifies this
      ensures ok <==> fate == Completes
      ensures files == if ok then old(files)[path := Render(dump, doc)] else old(files)
    {
      var parts: seq<string> := [];
      if doc.frontmatter.Some? {
        var rendered := dump(doc.frontmatter.value);
        parts := [FENCE, rendered, FENCE];
      }
      parts := parts + [doc.body];
      assert parts == if doc.frontmatter.None? then [doc.body]
                      else [FENCE, dump(doc.frontmatter.value), FENCE, doc.body];
      var text := Concatenated(parts);
      ConcatenatedIsRendered(dump, doc);
      match fate {
        case Completes =>
          Replaced(files, temp, path, text);
          files := files[temp := text];
          files := files[path := text] - {temp};
          ok := true;
        case FailsWriting(n) =>
          TempRemoved(files, temp, text[..Min(n, |text|)]);
          files := files[temp := text[..Min(n, |text|)]];
          files := files - {temp};
          ok := false;
        case FailsReplacing =>
          TempRemoved(files, temp, text);
          files := files[temp := text];
          files := files - {temp};
          ok := false;
      }
    }

    method ReadMarkdown<F>(path: string, load: string -> Parsed<F>) returns (r: Result<Document<F>, ReadError>)
      ensures r == if path in files then Parse(load, Universal(files[path])) else Err(NoSuchFile)
    {
      if path !in files {
        return Err(NoSuchFile);
      }
      var text := Universal(files[path]);
      if !StartsWithFence(text) {
        return Ok(Document(None, text));
      }
      var end := Find(text, CLOSING, |FENCE|);
      if end == -1 {
        return Ok(Document(None, text));
      }
      var body := text[end + |CLOSING|..];
      match load(text[|FENCE|..end])
      case Empty => r := Ok(Document(None, body));
      case Mapping(f) => r := Ok(Document(Some(f), body));
      case OtherValue => r := Err(NotAMapping);
      case Malformed => r := Err(BadYaml);
    }
  }

  function Concatenated(parts: seq<string>): string {
    if parts == [] then "" else parts[0] + Concatenated(parts[1..])
  }

  lemma ConcatenatedIsRendered<F>(dump: F -> string, doc: Document<F>)
    ensures doc.frontmatter.None? ==> Concatenated([doc.body]) == Render(dump, doc)
    ensures doc.frontmatter.Some? ==>
              Concatenated([FENCE, dump(doc.frontmatter.value), FENCE, doc.body]) == Render(dump, doc)
  {
    ConcatenatedStep(doc.body, []);
    if doc.frontmatter.Some? {
      var d := dump(doc.frontmatter.value);
      ConcatenatedStep(FENCE, [doc.body]);
      ConcatenatedStep(d, [FENCE, doc.body]);
      ConcatenatedStep(FENCE, [d, FENCE, doc.body]);
    }
  }

  lemma TempRemoved(files: map<string, string>, temp: string, text: string)
    requires temp !in files
    ensures files[temp := text] - {temp} == files
  {
    var after := files[temp := text] - {temp};
    assert forall k :: k in after <==> k in files;
    SameMembers(after.Keys, files.Keys);
  }

  lemma Replaced(files: map<string, string>, temp: string, path: string, text: string)
    requires temp !in files && temp != path
    ensures files[temp := text][path := text] - {temp} == files[path := text]
  {
    var after, goal := files[temp := text][path := text] - {temp}, files[path := text];
    assert forall k :: k in after <==> k in goal;
    SameMembers(after.Keys, goal.Keys);
  }

  lemma ConcatenatedStep(first: string, rest: seq<string>)
    ensures Concatenated([first] + rest) == first + Concatenated(rest)
  {
  }

  // ---------- Line endings ----------

  lemma {:induction false} UniversalKeeps(a: string, b: string)
    requires '\r' !in a
    ensures Universal(a + b) == a + Universal(b)
  {
    if a == [] {
      assert a + b == b;
    } else {
      assert (a + b)[1..] == a[1..] + b;
      UniversalKeeps(a[1..], b);
      assert a == [a[0]] + a[1..];
    }
  }

  lemma {:induction false} UniversalNeverLonger(s: string)
    ensures |Universal(s)| <= |s| && '\r' !in Universal(s)
    decreases |s|
  {
    if s != [] {
      UniversalNeverLonger(s[1..]);
      if |s| > 1 {
        UniversalNeverLonger(s[2..]);
      }
    }
  }

  lemma UniversalIdentity(s: string)
    ensures Universal(s) == s <==> '\r' !in s
  {
    UniversalNeverLonger(s);
    if '\r' !in s {
      UniversalKeeps(s, []);
      assert s + [] == s;
    }
  }

  predicate IsLine(s: string) {
    '\r' !in s && '\n' !in s
  }

  /** Lines, each with the line ending behind it. */
  function Ended(lines: seq<string>, ending: string): string {
    if lines == [] then "" else lines[0] + (ending + Ended(lines[1..], ending))
  }

  lemma EndingRead(ending: string, rest: string)
    requires ending == "\n" || ending == "\r\n" || (ending == "\r" && (rest == "" || rest[0] != '\n'))
    ensures Universal(ending + rest) == "\n" + Universal(rest)
  {
    var s := ending + rest;
    if ending == "\r\n" {
      assert s[0] == '\r' && s[1] == '\n' && s[2..] == rest;
    } else {
      assert s[1..] == rest && (rest != "" ==> s[1] == rest[0]);
    }
  }

  /** Whichever of the three line endings a text uses, it is read with "\n" instead. */
  lemma {:induction false} LineEndingsUnified(lines: seq<string>, ending: string)
    requires forall i :: 0 <= i < |lines| ==> IsLine(lines[i])
    requires ending == "\n" || ending == "\r\n" || ending == "\r"
    ensures Universal(Ended(lines, ending)) == Ended(lines, "\n")
    ensures ending != "\n" && lines != [] ==> Ended(lines, ending) == "" || Ended(lines, ending)[0] != '\n'
  {
    if lines != [] {
      var rest := Ended(lines[1..], ending);
      LineEndingsUnified(lines[1..], ending);
      assert lines[0] != "" ==> lines[0][0] in lines[0];
      EndingRead(ending, rest);
      UniversalKeeps(lines[0], ending + rest);
    }
  }

  // ---------- Round trips ----------

  /** What is asked of the codec for one front matter: the dump ends its last line, holds no
      carriage return and no closing fence, and loads again without its last newline. */
  ghost predicate CodecFine<F>(dump: F -> string, load: string -> Parsed<F>, f: F) {
    var d := dump(f);
    && d != [] && d[|d| - 1] == '\n' && '\r' !in d
    && Absent(d, CLOSING, 0, |d|)
    && load(d[..|d| - 1]) == Mapping(f)
  }

  lemma OccursInFront(a: string, b: string, pat: string, i: nat)
    requires i + |pat| <= |a|
    ensures OccursAt(a + b, pat, i) <==> OccursAt(a, pat, i)
  {
    assert (a + b)[i..i + |pat|] == a[i..i + |pat|];
  }

  /** No closing fence straddles the end of a dump. */
  lemma NoEarlierFence(d: string, rest: string, i: nat)
    requires d != [] && d[|d| - 1] == '\n' && Absent(d, CLOSING, 0, |d|)
    requires i < |d| - 1
    ensures !OccursAt(d + rest, CLOSING, i)
  {
    var k := |d| - 1 - i;
    if k >= 4 {
      OccursInFront(d, rest, CLOSING, i);
    } else {
      assert (d + rest)[i + k] == '\n';
      assert CLOSING[k] == '-';
    }
  }

  lemma DumpThenFence(d: string, body: string)
    requires d != [] && d[|d| - 1] == '\n'
    ensures OccursAt(d + (FENCE + body), CLOSING, |d| - 1)
  {
    var text := d + (FENCE + body);
    assert text[|d| - 1..|d| - 1 + |CLOSING|] == [d[|d| - 1]] + FENCE;
  }

  lemma NoFenceInDump(d: string, rest: string)
    requires d != [] && d[|d| - 1] == '\n' && Absent(d, CLOSING, 0, |d|)
    ensures Absent(d + rest, CLOSING, 0, |d| - 1)
  {
    forall i: nat | i < |d| - 1 ensures !OccursAt(d + rest, CLOSING, i) {
      NoEarlierFence(d, rest, i);
    }
  }

  lemma FenceFound(text: string, at: nat)
    requires StartsWithFence(text) && |FENCE| <= at
    requires OccursAt(text, CLOSING, at) && Absent(text, CLOSING, |FENCE|, at)
    ensures FenceEnd(text) == at
  {
    FoundFirst(text, CLOSING, |FENCE|, at);
  }

  /** In a rendered document the first closing fence is the one written after the dump. */
  lemma FirstClosingFence(d: string, body: string)
    requires d != [] && d[|d| - 1] == '\n' && Absent(d, CLOSING, 0, |d|)
    ensures var text := FENCE + (d + (FENCE + body));
            StartsWithFence(text) && FenceEnd(text) == |FENCE| + |d| - 1
  {
    var rest, at: nat := FENCE + body, |d| - 1;
    var text := FENCE + (d + rest);
    assert text[..|FENCE|] == FENCE;
    DumpThenFence(d, body);
    NoFenceInDump(d, rest);
    OccursBehind(FENCE, d + rest, CLOSING, at);
    AbsentBehind(FENCE, d + rest, CLOSING, at);
    FenceFound(text, |FENCE| + at);
  }

  /** A block between fences is handed to the loader without its last newline: nothing makes
      no front matter, a mapping makes it, anything else and bad YAML are errors, and the
      body is what follows the closing fence. */
  lemma BlockIsParsed<F>(load: string -> Parsed<F>, block: string, body: string)
    requires block != [] && block[|block| - 1] == '\n' && Absent(block, CLOSING, 0, |block|)
    ensures Parse(load, FENCE + (block + (FENCE + body)))
            == match load(block[..|block| - 1])
               case Empty => Ok(Document(None, body))
               case Mapping(f) => Ok(Document(Some(f), body))
               case OtherValue => Err(NotAMapping)
               case Malformed => Err(BadYaml)
  {
    var text := FENCE + (block + (FENCE + body));
    FirstClosingFence(block, body);
    var end := FenceEnd(text);
    assert text[|FENCE|..end] == block[..|block| - 1];
    assert text[end + |CLOSING|..] == body;
  }

  /** A text that does not begin with a fenced block is all body. */
  lemma UnfencedIsBody<F>(load: string -> Parsed<F>, text: string)
    requires |text| < 4 || text[..4] != "---\n" || Absent(text, "\n---\n", 4, |text|)
    ensures Parse(load, text) == Ok(Document(None, text))
  {
  }

  /** Front matter and body come back, however many fence lines the body holds; its line
      endings come back as "\n". */
  lemma WrittenIsRead<F>(dump: F -> string, load: string -> Parsed<F>, f: F, body: string)
    requires CodecFine(dump, load, f)
    ensures Parse(load, Universal(Render(dump, Document(Some(f), body)))) == Ok(Document(Some(f), Universal(body)))
  {
    var d := dump(f);
    UniversalKeeps(FENCE, body);
    UniversalKeeps(d, FENCE + body);
    UniversalKeeps(FENCE, d + (FENCE + body));
    var rest := FENCE + Universal(body);
    var text := FENCE + (d + rest);
    BlockIsParsed(load, d, Universal(body));
  }

  lemma RoundTrip<F>(dump: F -> string, load: string -> Parsed<F>, f: F, body: string)
    requires CodecFine(dump, load, f)
    ensures Parse(load, Universal(Render(dump, Document(Some(f), body)))) == Ok(Document(Some(f), body))
            <==> '\r' !in body
  {
    WrittenIsRead(dump, load, f, body);
    UniversalIdentity(body);
  }

  /** Without front matter the body comes back iff it has no carriage return and does not
      itself begin with a fenced block. */
  lemma BareRoundTrip<F>(dump: F -> string, load: string -> Parsed<F>, body: string)
    ensures Parse(load, Universal(Render(dump, Document(None, body)))) == Ok(Document(None, body))
            <==> '\r' !in body && !Fenced(body)
  {
    UniversalIdentity(body);
    UniversalNeverLonger(body);
  }
}
