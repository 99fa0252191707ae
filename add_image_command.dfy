/**
 * The AddImage markdown command: it turns an image (or video) payload into
 * markdown image syntax with a size-attribute suffix, pads it with blank lines
 * where the surrounding text needs them, and puts it in place of the current
 * selection with a single `replaceRange` tagged '+addImage'.
 */
module AddImageCommand {
  import opened Wrappers
  import opened Text
  import opened Buffer

  /**
   * The ImportManager string helpers the command calls. Their definitions are
   * not part of this model, so they are passed in as arbitrary functions.
   */
  datatype TextTransforms = TextTransforms(
    decodeURIGraceful: string -> string,
    escapeMarkdownCharacters: string -> string,
    encodeMarkdownCharacters: string -> string)

  /**
   * The command's `data`. An absent (or empty, hence falsy) `videoUrl` is "".
   */
  datatype ImageData = ImageData(imageUrl: string, altText: string, videoUrl: string)

  const Origin: string := "+addImage"
  const VideoSize: string := "{height=\"480\" width=\"640\"}"
  const ImageSize: string := "{height=\"\" width=\"\"}"
  const BlankLine: string := "\n\n"

  /** `data.videoUrl || data.imageUrl`: a video URL wins over the image URL. */
  function SourceUrl(data: ImageData): (r: string)
    ensures data.videoUrl != "" ==> r == data.videoUrl
    ensures data.videoUrl == "" ==> r == data.imageUrl
  {
    if data.videoUrl != "" then data.videoUrl else data.imageUrl
  }

  /** The alt text as written: URI-decoded first, then markdown-escaped. */
  function AltText(tf: TextTransforms, data: ImageData): (r: string)
    ensures r == tf.escapeMarkdownCharacters(tf.decodeURIGraceful(data.altText))
  {
    tf.escapeMarkdownCharacters(tf.decodeURIGraceful(data.altText))
  }

  /** The URL as written: the video URL if there is one, else the image URL, markdown-encoded. */
  function Url(tf: TextTransforms, data: ImageData): (r: string)
    ensures data.videoUrl != "" ==> r == tf.encodeMarkdownCharacters(data.videoUrl)
    ensures data.videoUrl == "" ==> r == tf.encodeMarkdownCharacters(data.imageUrl)
  {
    tf.encodeMarkdownCharacters(SourceUrl(data))
  }

  /** The size attributes: fixed for a video, empty for an image. */
  function SizeAttributes(data: ImageData): (r: string)
    ensures r == VideoSize <==> data.videoUrl != ""
    ensures r == ImageSize <==> data.videoUrl == ""
  {
    assert |VideoSize| != |ImageSize|;
    if data.videoUrl != "" then VideoSize else ImageSize
  }

  /**
   * `![alt](url)` followed by the size attributes: it opens with `![`, ends
   * with the size attributes and so closes with their `"}`.
   */
  function ImageSyntax(tf: TextTransforms, data: ImageData): (r: string)
    ensures |r| >= 2 && r[..2] == "!["
    ensures |r| >= |SizeAttributes(data)| && r[|r| - |SizeAttributes(data)|..] == SizeAttributes(data)
    ensures r[|r| - 2..] == "\"}"
  {
    var size := SizeAttributes(data);
    var x1 := "![" + AltText(tf, data);
    var x2 := x1 + "](";
    var x3 := x2 + Url(tf, data);
    var x4 := x3 + ")";
    StartsWith2("![", AltText(tf, data));
    StartsWith2(x1, "](");
    StartsWith2(x2, Url(tf, data));
    StartsWith2(x3, ")");
    StartsWith2(x4, size);
    EndsWith2(x4, size);
    assert (x4 + size)[|x4|..] == size;
    x4 + size
  }

  /**
   * `(cm.getLine(to.line + 1) || '').trim().length === 0`: an absent next
   * line counts as empty, like a line of white space.
   */
  function NextLineIsEmpty(next: Option<string>): (r: bool)
    ensures r <==> next.None? || AllWhitespace(next.value)
  {
    |Trim(next.GetOr(""))| == 0
  }

  /** The first two characters of `a + b` are those of `a`. */
  lemma StartsWith2(a: string, b: string)
    requires |a| >= 2
    ensures (a + b)[..2] == a[..2]
  {
  }

  /** The last two characters of `a + b` are those of `b`. */
  lemma EndsWith2(a: string, b: string)
    requires |b| >= 2
    ensures (a + b)[|a + b| - 2..] == b[|b| - 2..]
  {
    assert (a + b)[|a|..] == b;
    assert (a + b)[|a + b| - 2..] == (a + b)[|a|..][|b| - 2..];
  }

  /**
   * The text that replaces the selection. Two line breaks lead it exactly
   * when the selection starts past column 0, and two line breaks end it
   * exactly when there is a next line that is not blank.
   */
  function ReplacementText(tf: TextTransforms, data: ImageData, fromCh: nat, next: Option<string>): (r: string)
    ensures |r| >= 2
    ensures r[..2] == BlankLine <==> fromCh > 0
    ensures r[|r| - 2..] == BlankLine <==> next.Some? && !AllWhitespace(next.value)
  {
    var core := ImageSyntax(tf, data);
    var pre := if fromCh > 0 then BlankLine else "";
    var post := if NextLineIsEmpty(next) then "" else BlankLine;
    Padded(pre, core, post);
    pre + core + post
  }

  /**
   * Padding a block that opens with `![` and closes with `"}`: the result
   * starts with a blank line exactly when `pre` is one, and ends with one
   * exactly when `post` is one.
   */
  lemma Padded(pre: string, core: string, post: string)
    requires pre == "" || pre == BlankLine
    requires post == "" || post == BlankLine
    requires |core| >= 2 && core[..2] == "![" && core[|core| - 2..] == "\"}"
    ensures var r := pre + core + post;
      && |r| >= 2
      && (r[..2] == BlankLine <==> pre == BlankLine)
      && (r[|r| - 2..] == BlankLine <==> post == BlankLine)
  {
    var r := pre + core + post;
    assert r[..2] == if pre == BlankLine then BlankLine else core[..2] by {
      StartsWith2(pre + core, post);
      if pre == BlankLine {
        StartsWith2(pre, core);
      } else {
        assert pre + core == core;
      }
    }
    assert r[|r| - 2..] == if post == "" then core[|core| - 2..] else BlankLine by {
      if post == "" {
        assert r == pre + core;
        EndsWith2(pre, core);
      } else {
        EndsWith2(pre + core, post);
      }
    }
  }

  // A reader of the replacement text, the inverse of ReplacementText: it
  // reads the text back into padding, alt text, URL and size.

  /** The parts of an inserted image block. */
  datatype ImageBlock = ImageBlock(leading: bool, alt: string, url: string, video: bool, trailing: bool)

  /** `s` without the prefix `p`, if `s` starts with `p`. */
  function StripPrefix(s: string, p: string): (r: Option<string>)
    ensures r.Some? <==> p <= s
    ensures r.Some? ==> s == p + r.value
  {
    if p <= s then Some(s[|p|..]) else None
  }

  /**
   * Reads up to the first `close` that is not escaped by a backslash and
   * returns what precedes it and what follows it.
   */
  function ScanTo(s: string, close: char): Option<(string, string)>
    decreases |s|
  {
    if s == [] then None
    else if s[0] == '\\' then
      if |s| < 2 then None
      else match ScanTo(s[2..], close)
        case None => None
        case Some(p) => Some((s[..2] + p.0, p.1))
    else if s[0] == close then Some(([], s[1..]))
    else match ScanTo(s[1..], close)
      case None => None
      case Some(p) => Some(([s[0]] + p.0, p.1))
  }

  /** `s` holds no unescaped `close` and does not end in a lone backslash. */
  predicate NoBareClose(s: string, close: char)
    decreases |s|
  {
    || s == []
    || (s[0] == '\\' && |s| >= 2 && NoBareClose(s[2..], close))
    || (s[0] != '\\' && s[0] != close && NoBareClose(s[1..], close))
  }

  lemma {:induction false} ScanToClose(a: string, close: char, b: string)
    requires close != '\\'
    requires NoBareClose(a, close)
    ensures ScanTo(a + [close] + b, close) == Some((a, b))
    decreases |a|
  {
    var s := a + [close] + b;
    if a == [] {
      assert s == [close] + b;
    } else if a[0] == '\\' {
      assert s[2..] == a[2..] + [close] + b;
      ScanToClose(a[2..], close, b);
      assert s[..2] + a[2..] == a;
    } else {
      assert s[1..] == a[1..] + [close] + b;
      ScanToClose(a[1..], close, b);
      assert [s[0]] + a[1..] == a;
    }
  }

  /** Reads the size attributes and the trailing padding. */
  function ParseTail(s: string): Option<(bool, bool)>
  {
    var video := VideoSize <= s;
    var rest := if video then StripPrefix(s, VideoSize) else StripPrefix(s, ImageSize);
    if rest.None? then None
    else if rest.value == "" then Some((video, false))
    else if rest.value == BlankLine then Some((video, true))
    else None
  }

  /** Reads `[\n\n]![alt](url){size}[\n\n]` back into its parts. */
  function ParseImageBlock(s: string): Option<ImageBlock>
  {
    if BlankLine <= s then ParseBody(true, s[2..]) else ParseBody(false, s)
  }

  /** Reads `![alt](url){size}[\n\n]`. */
  function ParseBody(leading: bool, s: string): Option<ImageBlock>
  {
    match StripPrefix(s, "![")
    case None => None
    case Some(rest) =>
      match ScanTo(rest, ']')
      case None => None
      case Some(altRest) => ParseDestination(leading, altRest.0, altRest.1)
  }

  /** Reads `(url){size}[\n\n]`, the alt text having been read. */
  function ParseDestination(leading: bool, alt: string, s: string): Option<ImageBlock>
  {
    match StripPrefix(s, "(")
    case None => None
    case Some(rest) =>
      match ScanTo(rest, ')')
      case None => None
      case Some(urlRest) =>
        match ParseTail(urlRest.1)
        case None => None
        case Some(tail) => Some(ImageBlock(leading, alt, urlRest.0, tail.0, tail.1))
  }

  lemma ParseSize(data: ImageData, post: string)
    requires post == "" || post == BlankLine
    ensures ParseTail(SizeAttributes(data) + post) == Some((data.videoUrl != "", post == BlankLine))
  {
    var s := SizeAttributes(data) + post;
    if data.videoUrl == "" {
      assert s[9] == '"';
      assert !(VideoSize <= s);
      assert s[|ImageSize|..] == post;
    } else {
      assert s[|VideoSize|..] == post;
    }
  }

  /**
   * Reading the replacement text back gives the padding decisions, the
   * decoded-then-escaped alt text, the encoded URL and the kind of size
   * attributes the command chose, provided the helpers leave no unescaped
   * `]` in the alt text and no unescaped `)` in the URL.
   */
  lemma ParseReplacementText(tf: TextTransforms, data: ImageData, fromCh: nat, next: Option<string>)
    requires NoBareClose(AltText(tf, data), ']')
    requires NoBareClose(Url(tf, data), ')')
    ensures ParseImageBlock(ReplacementText(tf, data, fromCh, next))
         == Some(ImageBlock(fromCh > 0, AltText(tf, data), Url(tf, data), data.videoUrl != "", !NextLineIsEmpty(next)))
  {
    var pre := if fromCh > 0 then BlankLine else "";
    var post := if NextLineIsEmpty(next) then "" else BlankLine;
    assert ReplacementText(tf, data, fromCh, next) == pre + ImageSyntax(tf, data) + post;
    ParseBlock(pre, AltText(tf, data), Url(tf, data), data, post);
  }

  /** ParseReplacementText with the parts of the text as parameters. */
  lemma ParseBlock(pre: string, alt: string, url: string, data: ImageData, post: string)
    requires pre == "" || pre == BlankLine
    requires post == "" || post == BlankLine
    requires NoBareClose(alt, ']') && NoBareClose(url, ')')
    ensures ParseImageBlock(pre + ("![" + alt + "](" + url + ")" + SizeAttributes(data)) + post)
         == Some(ImageBlock(pre == BlankLine, alt, url, data.videoUrl != "", post == BlankLine))
  {
    var size := SizeAttributes(data);
    var afterUrl := size + post;
    var afterAlt := "(" + url + [')'] + afterUrl;
    var body := "![" + alt + [']'] + afterAlt;
    assert "![" + alt + "](" + url + ")" + size == "![" + alt + [']'] + ("(" + url + [')'] + size);
    assert ("![" + alt + "](" + url + ")" + size) + post == body;
    assert pre + ("![" + alt + "](" + url + ")" + size) + post == pre + body;
    var l := pre == BlankLine;
    ParseLead(pre, body);
    ParseAlt(l, alt, afterAlt);
    ParseUrl(l, alt, url, afterUrl);
    ParseSize(data, post);
    assert ParseDestination(l, alt, afterAlt) == Some(ImageBlock(l, alt, url, data.videoUrl != "", post == BlankLine));
  }

  lemma ParseLead(pre: string, body: string)
    requires pre == "" || pre == BlankLine
    requires |body| > 0 && body[0] == '!'
    ensures ParseImageBlock(pre + body) == ParseBody(pre == BlankLine, body)
  {
    var s := pre + body;
    if pre == "" {
      assert s == body;
      assert !(BlankLine <= s) by { assert s[0] != BlankLine[0]; }
    } else {
      assert BlankLine <= s;
      assert s[2..] == body;
    }
  }

  lemma ParseAlt(leading: bool, alt: string, afterAlt: string)
    requires NoBareClose(alt, ']')
    ensures ParseBody(leading, "![" + alt + [']'] + afterAlt) == ParseDestination(leading, alt, afterAlt)
  {
    var afterBang := alt + [']'] + afterAlt;
    var s := "![" + alt + [']'] + afterAlt;
    assert s == "![" + afterBang;
    assert StripPrefix(s, "![") == Some(afterBang);
    ScanToClose(alt, ']', afterAlt);
  }

  lemma ParseUrl(leading: bool, alt: string, url: string, afterUrl: string)
    requires NoBareClose(url, ')')
    ensures ParseDestination(leading, alt, "(" + url + [')'] + afterUrl)
         == match ParseTail(afterUrl)
            case None => None
            case Some(tail) => Some(ImageBlock(leading, alt, url, tail.0, tail.1))
  {
    var afterParen := url + [')'] + afterUrl;
    var s := "(" + url + [')'] + afterUrl;
    assert s == "(" + afterParen;
    assert StripPrefix(s, "(") == Some(afterParen);
    ScanToClose(url, ')', afterUrl);
  }

  // The reader is also sound: whatever it accepts is the rendering of the
  // block it returns, so the replacement text is exactly its parts.

  /** The padding that a padding decision stands for. */
  function Pad(b: bool): string
  {
    if b then BlankLine else ""
  }

  /** The size attributes that the video/image decision stands for. */
  function SizeOf(video: bool): string
  {
    if video then VideoSize else ImageSize
  }

  /** The size attributes and trailing padding of a block: `{size}[\n\n]`. */
  function TailText(b: ImageBlock): string
  {
    SizeOf(b.video) + Pad(b.trailing)
  }

  /** The text of an image block, `[\n\n]![alt](url){size}[\n\n]`, grouped as it is read. */
  function Render(b: ImageBlock): string
  {
    Pad(b.leading) + ("![" + (b.alt + ([']'] + ("(" + (b.url + ([')'] + TailText(b)))))))
  }

  lemma {:induction false} ScanToSound(s: string, close: char)
    requires ScanTo(s, close).Some?
    ensures s == ScanTo(s, close).value.0 + ([close] + ScanTo(s, close).value.1)
    decreases |s|
  {
    if s[0] == '\\' {
      ScanToSound(s[2..], close);
      assert s == s[..2] + s[2..];
    } else if s[0] != close {
      ScanToSound(s[1..], close);
      assert s == [s[0]] + s[1..];
    } else {
      assert s == [] + ([close] + s[1..]);
    }
  }

  lemma ParseTailSound(s: string)
    requires ParseTail(s).Some?
    ensures s == SizeOf(ParseTail(s).value.0) + Pad(ParseTail(s).value.1)
  {
    var video := VideoSize <= s;
    var rest := if video then StripPrefix(s, VideoSize) else StripPrefix(s, ImageSize);
    assert s == SizeOf(video) + rest.value;
  }

  lemma ParseDestinationSound(leading: bool, alt: string, s: string)
    requires ParseDestination(leading, alt, s).Some?
    ensures var b := ParseDestination(leading, alt, s).value;
      b.leading == leading && b.alt == alt && s == "(" + (b.url + ([')'] + TailText(b)))
  {
    var rest := StripPrefix(s, "(").value;
    ScanToSound(rest, ')');
    ParseTailSound(ScanTo(rest, ')').value.1);
  }

  lemma ParseBodySound(leading: bool, s: string)
    requires ParseBody(leading, s).Some?
    ensures var b := ParseBody(leading, s).value;
      b.leading == leading && s == "![" + (b.alt + ([']'] + ("(" + (b.url + ([')'] + TailText(b))))))
  {
    var rest := StripPrefix(s, "![").value;
    ScanToSound(rest, ']');
    var p := ScanTo(rest, ']').value;
    ParseDestinationSound(leading, p.0, p.1);
  }

  /** Whatever the reader accepts is the rendering of the block it returns. */
  lemma ParseSound(s: string)
    ensures ParseImageBlock(s).Some? ==> s == Render(ParseImageBlock(s).value)
  {
    if ParseImageBlock(s).Some? {
      if BlankLine <= s {
        ParseBodySound(true, s[2..]);
        assert s == BlankLine + s[2..];
      } else {
        ParseBodySound(false, s);
        assert s == "" + s;
      }
    }
  }

  /** The payload of the two scenarios below. */
  const CatImage: ImageData := ImageData("c.png", "cat", "")

  /** The markdown of the cat image, spelled out. */
  lemma CatImageLiteral()
    ensures "![" + "cat" + "](" + "c.png" + ")" == "![cat](c.png)"
  {
    assert "![" + "cat" == "![cat";
    assert "![cat" + "](" == "![cat](";
    assert "![cat](" + "c.png" == "![cat](c.png";
  }

  lemma CatImageSyntax(tf: TextTransforms)
    requires tf.escapeMarkdownCharacters(tf.decodeURIGraceful("cat")) == "cat"
    requires tf.encodeMarkdownCharacters("c.png") == "c.png"
    ensures ImageSyntax(tf, CatImage) == "![cat](c.png)" + ImageSize
  {
    assert AltText(tf, CatImage) == "cat";
    assert Url(tf, CatImage) == "c.png";
    assert SizeAttributes(CatImage) == ImageSize;
    CatImageLiteral();
  }

  /**
   * A cursor at column 5 followed by the line "text": the image goes into
   * its own paragraph, with blank lines before and after (when the helpers
   * leave this alt text and URL as they are).
   */
  lemma CursorInsideLine(tf: TextTransforms)
    requires tf.escapeMarkdownCharacters(tf.decodeURIGraceful("cat")) == "cat"
    requires tf.encodeMarkdownCharacters("c.png") == "c.png"
    ensures ReplacementText(tf, CatImage, 5, Some("text"))
         == "\n\n" + "![cat](c.png)" + "{height=\"\" width=\"\"}" + "\n\n"
  {
    CatImageSyntax(tf);
    assert !AllWhitespace("text") by { assert !IsWhitespace("text"[0]); }
    assert !NextLineIsEmpty(Some("text"));
  }

  /** A cursor at column 0 followed by an empty line: no padding at all. */
  lemma CursorAtLineStart(tf: TextTransforms)
    requires tf.escapeMarkdownCharacters(tf.decodeURIGraceful("cat")) == "cat"
    requires tf.encodeMarkdownCharacters("c.png") == "c.png"
    ensures ReplacementText(tf, CatImage, 0, Some("")) == "![cat](c.png)" + "{height=\"\" width=\"\"}"
  {
    CatImageSyntax(tf);
    assert NextLineIsEmpty(Some(""));
    assert "" + ImageSyntax(tf, CatImage) + "" == ImageSyntax(tf, CatImage);
  }

  /** On the last line there is no next line, and no trailing padding. */
  lemma CursorOnLastLine(tf: TextTransforms, data: ImageData, fromCh: nat)
    ensures ReplacementText(tf, data, fromCh, None)
         == (if fromCh > 0 then BlankLine else "") + ImageSyntax(tf, data)
  {
    assert NextLineIsEmpty(None);
  }

  /**
   * `AddImage.exec(mde, data)`: reads the selection, builds the replacement
   * text step by step and replaces exactly the selection with it, tagged
   * '+addImage', then focuses the editor.
   */
  method Exec(mde: MarkdownEditor, data: ImageData, tf: TextTransforms)
    requires mde.Valid()
    modifies mde
    ensures mde.Valid()
    ensures var sel := old(mde.selection);
      var text := ReplacementText(tf, data, sel.from.ch, LineAt(old(mde.lines), sel.to.line + 1));
      && mde.edits == old(mde.edits) + [Edit(text, sel.from, sel.to, Origin)]
      && mde.lines == Splice(old(mde.lines), sel.from, sel.to, text)
      && JoinLines(mde.lines) == TextBefore(old(mde.lines), sel.from) + text + TextAfter(old(mde.lines), sel.to)
    ensures mde.focused
  {
    var range := mde.GetCurrentRange();
    var from := Pos(range.from.line, range.from.ch);
    var to := Pos(range.to.line, range.to.ch);
    ghost var sel, next := old(mde.selection), LineAt(old(mde.lines), old(mde.selection).to.line + 1);
    assert from == sel.from && to == sel.to;

    var altText := data.altText;
    var imageUrl := if data.videoUrl != "" then data.videoUrl else data.imageUrl;
    altText := tf.decodeURIGraceful(altText);
    altText := tf.escapeMarkdownCharacters(altText);
    imageUrl := tf.encodeMarkdownCharacters(imageUrl);

    var replaceText := "";
    if data.videoUrl != "" {
      replaceText := "![" + altText + "](" + imageUrl + ")" + VideoSize;
    } else {
      replaceText := "![" + altText + "](" + imageUrl + ")" + ImageSize;
    }
    ghost var core := ImageSyntax(tf, data);
    assert replaceText == core;

    if from.ch > 0 {
      replaceText := BlankLine + replaceText;
    }
    ghost var pre := if from.ch > 0 then BlankLine else "";
    assert replaceText == pre + core;
    var nextLine := mde.GetLine(to.line + 1);
    assert nextLine == next;
    var isNextLineEmpty := |Trim(nextLine.GetOr(""))| == 0;
    assert isNextLineEmpty == NextLineIsEmpty(next);
    if !isNextLineEmpty {
      replaceText := replaceText + BlankLine;
    }
    ghost var post := if isNextLineEmpty then "" else BlankLine;
    assert replaceText == pre + core + post;
    assert replaceText == ReplacementText(tf, data, sel.from.ch, next);
    mde.ReplaceRange(replaceText, from, to, Origin);

    mde.Focus();
  }
}
