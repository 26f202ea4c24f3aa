/** The message `sendMail` builds and hands to the Gmail API: headers with
    CRLF line ends, the subject as an RFC 2047 "B" encoded-word (section 2
    and section 4.1), a `multipart/mixed` body (RFC 2046, section 5.1.1)
    with the text first and then one part per attachment whose file
    exists, and the whole message as unpadded base64url (RFC 4648,
    section 5). The file system is the function `files` from an
    attachment's path to its contents; `GMAIL_EMAIL` is `from` and the
    clock reading that names the boundary is `now`. */
module Mailer {
  import opened Wrappers
  import opened Strings
  import opened Utf8
  import Base64

  datatype Recipients = One(address: string) | Many(addresses: seq<string>)

  datatype Attachment = Attachment(filename: string, path: string)

  /** `SendMailOptions`; the two optional members are `None` when absent. */
  datatype MailOptions = MailOptions(to: Recipients, subject: string, text: Option<string>,
                                     attachments: Option<seq<Attachment>>)

  /** The contents of the file an attachment path names, or `None` when
      `fs.existsSync` finds no file there. */
  type Files = string -> Option<seq<byte>>

  // --------------------------------------------------------------- subject

  const WordStart := "=?UTF-8?B?"
  const WordEnd := "?="

  /** `encodeRFC2047Header(str)` */
  function EncodeRfc2047Header(s: string): (r: string)
    ensures StartsWith(r, WordStart) && EndsWith(r, WordEnd)
  {
    var e := Base64.Encode(Utf8.Encode(s));
    var r := WordStart + e + WordEnd;
    assert r[..|WordStart|] == WordStart;
    assert r[|r| - |WordEnd|..] == WordEnd;
    r
  }

  /** Reads a "B" encoded-word with charset UTF-8 back into its text. */
  function DecodeEncodedWord(w: string): Option<string> {
    if |w| < |WordStart| + |WordEnd| || !StartsWith(w, WordStart) || !EndsWith(w, WordEnd) then None
    else
      match Base64.Decode(w[|WordStart|..|w| - |WordEnd|])
      case None => None
      case Some(bytes) => Utf8.Decode(bytes)
  }

  /** A reader of the header gets the subject back. */
  lemma SubjectRoundTrip(s: string)
    ensures DecodeEncodedWord(EncodeRfc2047Header(s)) == Some(s)
  {
    var e := Base64.Encode(Utf8.Encode(s));
    var w := WordStart + e + WordEnd;
    assert w[|WordStart|..|w| - |WordEnd|] == e;
    Base64.DecodeEncode(Utf8.Encode(s));
    Utf8.DecodeEncode(s);
  }

  // ----------------------------------------------------------- attachments

  // The header lines of a part are written as short pieces of literal
  // text, so that the absence of a line feed can be checked one piece at
  // a time.

  /** `Content-Type: application/octet-stream; name="<filename>"` */
  function ContentTypeLine(filename: string): string {
    "Content-" + "Type: " + "applicati" + "on/octet-" + "stream; " + "name=\"" + filename + "\""
  }

  /** `Content-Transfer-Encoding: base64` */
  const EncodingLine := "Content-" + "Transfer-" + "Encoding: " + "base64"

  /** `Content-Disposition: attachment; filename="<filename>"` */
  function DispositionLine(filename: string): string {
    "Content-" + "Dispositi" + "on: " + "attachme" + "nt; " + "filename=\"" + filename + "\""
  }

  /** `encodeAttachment(filePath, filename)` for a file holding `content`.
      Its lines end in a bare LF, unlike the rest of the message. */
  function EncodeAttachment(filename: string, content: seq<byte>): string {
    ContentTypeLine(filename) + "\n" + EncodingLine + "\n" + DispositionLine(filename) + "\n\n"
    + Base64.Encode(content)
  }

  // None of the header lines of a part holds a line feed.

  lemma ContentTypeSingle(filename: string)
    requires '\n' !in filename
    ensures '\n' !in ContentTypeLine(filename)
  {
  }

  lemma DispositionSingle(filename: string)
    requires '\n' !in filename
    ensures '\n' !in DispositionLine(filename)
  {
  }

  lemma EncodingSingle()
    ensures '\n' !in EncodingLine
  {
  }

  /** Four line feeds cut five single-line pieces apart. */
  lemma FiveLines(l0: string, l1: string, l2: string, e: string)
    requires '\n' !in l0 && '\n' !in l1 && '\n' !in l2 && '\n' !in e
    ensures Split(l0 + "\n" + l1 + "\n" + l2 + "\n\n" + e, '\n') == [l0, l1, l2, "", e]
  {
    var t3 := "" + "\n" + e;
    var t2 := l2 + "\n" + t3;
    var t1 := l1 + "\n" + t2;
    SplitPair("", '\n', e);
    SplitPair(l2, '\n', t3);
    SplitPair(l1, '\n', t2);
    SplitPair(l0, '\n', t1);
    assert l0 + "\n" + l1 + "\n" + l2 + "\n\n" + e == l0 + "\n" + t1;
  }

  /** A part is three header lines naming the file, a blank line, and one
      line of base64 that decodes to the file's contents. */
  lemma AttachmentLayout(filename: string, content: seq<byte>)
    requires '\n' !in filename
    ensures var lines := Split(EncodeAttachment(filename, content), '\n');
      && lines == [ContentTypeLine(filename), EncodingLine, DispositionLine(filename), "", Base64.Encode(content)]
      && Base64.Decode(lines[4]) == Some(content)
  {
    ContentTypeSingle(filename);
    DispositionSingle(filename);
    EncodingSingle();
    var e := Base64.Encode(content);
    Base64.EncodePrintable(content);
    assert '\n' !in e;
    FiveLines(ContentTypeLine(filename), EncodingLine, DispositionLine(filename), e);
    Base64.DecodeEncode(content);
  }

  // --------------------------------------------------------------- message

  /** `${process.env.GMAIL_EMAIL}`: an unset variable prints as `undefined`. */
  function FromText(from: Option<string>): string {
    match from
    case None => "undefined"
    case Some(f) => f
  }

  /** `Array.isArray(to) ? to.join(', ') : to` */
  function ToList(to: Recipients): string {
    match to
    case One(a) => a
    case Many(xs) => Join(xs, ", ")
  }

  /** `'----=_Part_' + new Date().getTime()` */
  function Boundary(now: nat): string {
    "----=_Part_" + NatToString(now)
  }

  /** `text || ''` */
  function TextOrEmpty(text: Option<string>): string {
    match text
    case None => ""
    case Some(t) => t
  }

  function Headers(opts: MailOptions, from: Option<string>): string {
    "From: " + FromText(from) + "\r\n" + "To: " + ToList(opts.to) + "\r\n"
    + "Subject: " + EncodeRfc2047Header(opts.subject) + "\r\n" + "MIME-Version: 1.0\r\n"
  }

  const PlainType := "Content-Type: text/plain; charset=\"UTF-8\"\r\n\r\n"

  /** `attachments && attachments.length > 0` */
  predicate HasAttachments(opts: MailOptions) {
    opts.attachments.Some? && |opts.attachments.value| > 0
  }

  /** The attachments whose file exists, each with its contents, in order. */
  function Present(atts: seq<Attachment>, files: Files): (r: seq<(string, seq<byte>)>)
    ensures |r| <= |atts|
  {
    if |atts| == 0 then []
    else
      var last := atts[|atts| - 1];
      Present(atts[..|atts| - 1], files)
      + (match files(last.path) case None => [] case Some(c) => [(last.filename, c)])
  }

  /** The dash-boundary line that opens every part. */
  function Delimiter(boundary: string): string {
    "--" + boundary + "\r\n"
  }

  /** The attachment parts, one per present file. */
  function PartsText(present: seq<(string, seq<byte>)>, boundary: string): string {
    if |present| == 0 then ""
    else
      var last := present[|present| - 1];
      PartsText(present[..|present| - 1], boundary) + Delimiter(boundary) + EncodeAttachment(last.0, last.1) + "\r\n"
  }

  /** The close-delimiter that ends the multipart body. */
  function Closing(boundary: string): string {
    "--" + boundary + "--"
  }

  /** The multipart header and the leading text part. */
  function MultipartHead(text: Option<string>, boundary: string): string {
    "Content-Type: multipart/mixed; boundary=\"" + boundary + "\"\r\n\r\n" + Delimiter(boundary) + PlainType
    + TextOrEmpty(text) + "\r\n\r\n"
  }

  function Body(opts: MailOptions, boundary: string, files: Files): string {
    if HasAttachments(opts) then
      MultipartHead(opts.text, boundary) + PartsText(Present(opts.attachments.value, files), boundary) + Closing(boundary)
    else PlainType + TextOrEmpty(opts.text)
  }

  /** The message `sendMail` builds. */
  function Message(opts: MailOptions, from: Option<string>, now: nat, files: Files): string {
    Headers(opts, from) + Body(opts, Boundary(now), files)
  }

  /** `s.replace(/c/g, d)` for a single character `c`. */
  function ReplaceChar(s: string, c: char, d: char): (r: string)
    ensures |r| == |s|
    ensures forall i :: 0 <= i < |s| ==> r[i] == if s[i] == c then d else s[i]
  {
    seq(|s|, i requires 0 <= i < |s| => if s[i] == c then d else s[i])
  }

  /** `raw`: the message's base64 with `+` and `/` renamed and the trailing
      `=` removed. */
  function Raw(message: string): string {
    Base64.StripPadding(ReplaceChar(ReplaceChar(Base64.Encode(Utf8.Encode(message)), '+', '-'), '/', '_'))
  }

  lemma Assoc(a: string, b: string, c: string)
    ensures (a + b) + c == a + (b + c)
  {
  }

  lemma PresentStep(atts: seq<Attachment>, i: nat, files: Files)
    requires i < |atts|
    ensures Present(atts[..i + 1], files) ==
      Present(atts[..i], files) + (match files(atts[i].path) case None => [] case Some(c) => [(atts[i].filename, c)])
  {
    assert atts[..i + 1][..i] == atts[..i];
  }

  lemma PartsStep(present: seq<(string, seq<byte>)>, filename: string, content: seq<byte>, boundary: string)
    ensures PartsText(present + [(filename, content)], boundary)
      == PartsText(present, boundary) + (Delimiter(boundary) + EncodeAttachment(filename, content) + "\r\n")
  {
    assert (present + [(filename, content)])[..|present|] == present;
  }

  /** One turn of the loop below, on the message built so far. */
  lemma MessageStep(start: string, atts: seq<Attachment>, i: nat, files: Files, boundary: string)
    requires i < |atts|
    ensures files(atts[i].path).None? ==>
      start + PartsText(Present(atts[..i + 1], files), boundary) == start + PartsText(Present(atts[..i], files), boundary)
    ensures files(atts[i].path).Some? ==>
      start + PartsText(Present(atts[..i + 1], files), boundary) ==
      start + PartsText(Present(atts[..i], files), boundary)
      + (Delimiter(boundary) + EncodeAttachment(atts[i].filename, files(atts[i].path).value) + "\r\n")
  {
    PresentStep(atts, i, files);
    var before := Present(atts[..i], files);
    if files(atts[i].path).Some? {
      var part := Delimiter(boundary) + EncodeAttachment(atts[i].filename, files(atts[i].path).value) + "\r\n";
      PartsStep(before, atts[i].filename, files(atts[i].path).value, boundary);
      Assoc(start, PartsText(before, boundary), part);
    } else {
      assert Present(atts[..i + 1], files) == before;
    }
  }

  /** The `for` loop of `sendMail`: appends a part for each attachment
      whose file exists and skips the others. */
  method AppendParts(start: string, atts: seq<Attachment>, files: Files, boundary: string) returns (message: string)
    ensures message == start + PartsText(Present(atts, files), boundary)
  {
    message := start;
    var i := 0;
    while i < |atts|
      invariant 0 <= i <= |atts|
      invariant message == start + PartsText(Present(atts[..i], files), boundary)
    {
      var file := atts[i];
      MessageStep(start, atts, i, files, boundary);
      var content := files(file.path);
      if content.None? {
        i := i + 1;
        continue;
      }
      // the three `+=` of one part
      var part := Delimiter(boundary) + EncodeAttachment(file.filename, content.value) + "\r\n";
      message := message + part;
      i := i + 1;
    }
    assert atts[..i] == atts;
  }

  /** The message and `raw` of `sendMail`, built as the source builds them:
      the headers, then either one text part or the multipart body with a
      part for each attachment whose file exists. */
  method SendMail(opts: MailOptions, from: Option<string>, now: nat, files: Files) returns (message: string, raw: string)
    ensures message == Message(opts, from, now, files)
    ensures raw == Raw(message)
  {
    var boundary := Boundary(now);
    // the four header lines
    message := Headers(opts, from);
    if opts.attachments.Some? && |opts.attachments.value| > 0 {
      var head := MultipartHead(opts.text, boundary);
      var h := message;
      message := message + head;
      message := AppendParts(message, opts.attachments.value, files, boundary);
      var parts := PartsText(Present(opts.attachments.value, files), boundary);
      message := message + Closing(boundary);
      Assoc(h, head, parts);
      Assoc(h, head + parts, Closing(boundary));
    } else {
      var h := message;
      message := message + PlainType;
      message := message + TextOrEmpty(opts.text);
      Assoc(h, PlainType, TextOrEmpty(opts.text));
    }
    raw := Base64.StripPadding(ReplaceChar(ReplaceChar(Base64.Encode(Utf8.Encode(message)), '+', '-'), '/', '_'));
  }

  // ------------------------------------------------------------ properties

  /** `raw` is the message's UTF-8 bytes in the URL-safe alphabet of
      section 5 of RFC 4648, without padding. */
  lemma RawIsUnpaddedBase64Url(message: string)
    ensures Raw(message) == Base64.EncodeUrl(Utf8.Encode(message))
  {
    var b := Utf8.Encode(message);
    var x := Base64.Sextets(b);
    var std := seq(|x|, i requires 0 <= i < |x| => Base64.StdChar(x[i]));
    var url := Base64.EncodeUrl(b);
    var pad := Base64.Padding(|x|);
    assert Base64.Encode(b) == std + pad;
    var renamed := ReplaceChar(ReplaceChar(std + pad, '+', '-'), '/', '_');
    assert renamed == url + pad by {
      assert |renamed| == |url + pad|;
      forall i | 0 <= i < |renamed|
        ensures renamed[i] == (url + pad)[i]
      {
        if i < |x| {
          assert (std + pad)[i] == Base64.StdChar(x[i]);
        } else {
          assert (std + pad)[i] == pad[i - |x|] == '=';
        }
      }
    }
    Base64.StripOfPadded(url, pad);
  }

  /** A reader of `raw` gets the message back. */
  lemma RawRoundTrip(message: string)
    ensures Base64.DecodeUrl(Raw(message)) == Some(Utf8.Encode(message))
    ensures Utf8.Decode(Base64.DecodeUrl(Raw(message)).value) == Some(message)
  {
    RawIsUnpaddedBase64Url(message);
    Base64.DecodeUrlEncode(Utf8.Encode(message));
    Utf8.DecodeEncode(message);
  }

  lemma SubjectSingle(subject: string)
    ensures '\n' !in EncodeRfc2047Header(subject)
  {
    var e := Base64.Encode(Utf8.Encode(subject));
    Base64.EncodePrintable(Utf8.Encode(subject));
    assert '\n' !in e;
  }

  /** The message opens with the From, To, Subject and MIME-Version lines,
      in that order, each ended by CRLF. */
  lemma HeaderLines(opts: MailOptions, from: Option<string>, now: nat, files: Files)
    requires '\n' !in FromText(from) && '\n' !in ToList(opts.to)
    ensures var lines := Split(Message(opts, from, now, files), '\n');
      && |lines| >= 5
      && lines[0] == "From: " + FromText(from) + "\r"
      && lines[1] == "To: " + ToList(opts.to) + "\r"
      && lines[2] == "Subject: " + EncodeRfc2047Header(opts.subject) + "\r"
      && lines[3] == "MIME-Version: 1.0\r"
  {
    var l0 := "From: " + FromText(from) + "\r";
    var l1 := "To: " + ToList(opts.to) + "\r";
    var l2 := "Subject: " + EncodeRfc2047Header(opts.subject) + "\r";
    var l3 := "MIME-Version: 1.0\r";
    SubjectSingle(opts.subject);
    assert '\n' !in l0 && '\n' !in l1 && '\n' !in l2;
    assert '\n' !in l3;
    var body := Body(opts, Boundary(now), files);
    assert Message(opts, from, now, files) == Headers(opts, from) + body;
    HeadersSplit(opts, from, body);
    LeadingLines(l0, l1, l2, l3, body);
  }

  /** Four lines, each ended by a line feed, come first in a split. */
  lemma LeadingLines(l0: string, l1: string, l2: string, l3: string, body: string)
    requires '\n' !in l0 && '\n' !in l1 && '\n' !in l2 && '\n' !in l3
    ensures var lines := Split(l0 + "\n" + (l1 + "\n" + (l2 + "\n" + (l3 + "\n" + body))), '\n');
      |lines| >= 5 && lines[0] == l0 && lines[1] == l1 && lines[2] == l2 && lines[3] == l3
  {
    var t3 := l3 + "\n" + body;
    var t2 := l2 + "\n" + t3;
    var t1 := l1 + "\n" + t2;
    SplitPair(l3, '\n', body);
    SplitPair(l2, '\n', t3);
    SplitPair(l1, '\n', t2);
    SplitPair(l0, '\n', t1);
  }

  lemma HeadersSplit(opts: MailOptions, from: Option<string>, body: string)
    ensures Headers(opts, from) + body ==
      ("From: " + FromText(from) + "\r") + "\n" + (("To: " + ToList(opts.to) + "\r") + "\n" +
      (("Subject: " + EncodeRfc2047Header(opts.subject) + "\r") + "\n" + ("MIME-Version: 1.0\r" + "\n" + body)))
  {
    HeaderText(FromText(from), ToList(opts.to), EncodeRfc2047Header(opts.subject), body);
  }

  /** The header text, regrouped line by line. */
  lemma HeaderText(f: string, t: string, w: string, body: string)
    ensures "From: " + f + "\r\n" + "To: " + t + "\r\n" + "Subject: " + w + "\r\n" + "MIME-Version: 1.0\r\n" + body ==
      ("From: " + f + "\r") + "\n" + (("To: " + t + "\r") + "\n" +
      (("Subject: " + w + "\r") + "\n" + ("MIME-Version: 1.0\r" + "\n" + body)))
  {
    assert "\r\n" == "\r" + "\n";
    assert "MIME-Version: 1.0\r\n" == "MIME-Version: 1.0\r" + "\n";
  }

  /** `Present` keeps order: the present files of two lists in a row are
      those of the first followed by those of the second. */
  lemma {:induction false} PresentAppend(u: seq<Attachment>, v: seq<Attachment>, files: Files)
    ensures Present(u + v, files) == Present(u, files) + Present(v, files)
    decreases |v|
  {
    if |v| > 0 {
      var w := u + v;
      assert w[..|w| - 1] == u + v[..|v| - 1];
      PresentAppend(u, v[..|v| - 1], files);
    } else {
      assert u + v == u;
    }
  }

  /** An attachment whose file does not exist leaves the message as if it
      had not been listed, as long as some attachment remains. */
  lemma MissingFileSkipped(opts: MailOptions, xs: seq<Attachment>, a: Attachment, ys: seq<Attachment>,
                           from: Option<string>, now: nat, files: Files)
    requires files(a.path).None? && |xs + ys| > 0
    ensures Message(opts.(attachments := Some(xs + [a] + ys)), from, now, files)
         == Message(opts.(attachments := Some(xs + ys)), from, now, files)
  {
    var o1 := opts.(attachments := Some(xs + [a] + ys));
    var o2 := opts.(attachments := Some(xs + ys));
    PresentAppend(xs + [a], ys, files);
    PresentAppend(xs, [a], files);
    PresentAppend(xs, ys, files);
    assert Present([a], files) == [] by {
      assert [a][..0] == [];
    }
    assert Present(xs + [a] + ys, files) == Present(xs + ys, files);
    assert Headers(o1, from) == Headers(o2, from);
    assert Body(o1, Boundary(now), files) == Body(o2, Boundary(now), files);
  }

  /** When every file exists there is one part per attachment, in the
      given order, with its name and contents. */
  lemma {:induction false} AllFilesPresent(atts: seq<Attachment>, files: Files)
    requires forall i :: 0 <= i < |atts| ==> files(atts[i].path).Some?
    ensures |Present(atts, files)| == |atts|
    ensures forall k :: 0 <= k < |atts| ==> Present(atts, files)[k] == (atts[k].filename, files(atts[k].path).value)
  {
    if |atts| > 0 {
      AllFilesPresent(atts[..|atts| - 1], files);
    }
  }

  /** With attachments, the body ends with the close-delimiter. */
  lemma EndsWithClosing(opts: MailOptions, from: Option<string>, now: nat, files: Files)
    requires HasAttachments(opts)
    ensures EndsWith(Message(opts, from, now, files), Closing(Boundary(now)))
  {
    var c := Closing(Boundary(now));
    var m := Message(opts, from, now, files);
    var rest := Headers(opts, from) + MultipartHead(opts.text, Boundary(now))
      + PartsText(Present(opts.attachments.value, files), Boundary(now));
    Assoc(Headers(opts, from), MultipartHead(opts.text, Boundary(now)) + PartsText(Present(opts.attachments.value, files), Boundary(now)), c);
    Assoc(Headers(opts, from), MultipartHead(opts.text, Boundary(now)), PartsText(Present(opts.attachments.value, files), Boundary(now)));
    assert m == rest + c;
    assert m[|m| - |c|..] == c;
  }
}
