/**
 * The message text both send routes build (`[...].join('\n')`) and the raw
 * string they hand to Gmail (UTF-8 bytes, then unpadded base64url).
 */
module MimeMessage {
  import opened Wrappers
  import opened Strings
  import Utf8
  import Base64Url

  const MimeVersionLine := "MIME-Version: 1.0"
  const ContentTypeLine := "Content-Type: text/html; charset=UTF-8"

  /** The header lines after `To:` and `Subject:`, the empty separator line, ready for the body. */
  const FixedHeaders := MimeVersionLine + "\n" + ContentTypeLine + "\n" + "\n"

  /** The six lines of the message, joined with a bare LF. */
  function Compose(to: string, subject: string, html: string): string {
    Join(["To: " + to, "Subject: " + subject, MimeVersionLine, ContentTypeLine, "", html], "\n")
  }

  /** The message is the two addressed headers, the fixed headers, an empty line and the body, each line ended by LF only. */
  lemma {:induction false} ComposeLayout(to: string, subject: string, html: string)
    ensures Compose(to, subject, html) == ("To: " + to) + "\n" + (("Subject: " + subject) + "\n" + (FixedHeaders + html))
  {
    JoinSix("To: " + to, "Subject: " + subject, MimeVersionLine, ContentTypeLine, "", html, "\n");
    assert MimeVersionLine + "\n" + (ContentTypeLine + "\n" + ("" + "\n" + html)) == FixedHeaders + html;
  }

  /** Index of the first LF in `s`. */
  function FirstLf(s: string): (r: Option<nat>)
    ensures r.Some? ==> r.value < |s| && s[r.value] == '\n' && '\n' !in s[..r.value]
    ensures r.None? ==> '\n' !in s
  {
    if |s| == 0 then None
    else if s[0] == '\n' then Some(0)
    else match FirstLf(s[1..])
      case None => None
      case Some(i) =>
        assert s[..i + 1] == [s[0]] + s[1..][..i];
        Some(i + 1)
  }

  lemma {:induction false} FirstLfAfter(a: string, b: string)
    requires '\n' !in a
    ensures FirstLf(a + "\n" + b) == Some(|a|)
  {
    var s := a + "\n" + b;
    assert s[|a|] == '\n';
    assert s[..|a|] == a;
  }

  predicate StartsWith(s: string, prefix: string) {
    |prefix| <= |s| && s[..|prefix|] == prefix
  }

  /** A text starts with what was put in front of it, and the rest follows. */
  lemma {:induction false} StartsWithPrefix(prefix: string, s: string)
    ensures StartsWith(prefix + s, prefix) && (prefix + s)[|prefix|..] == s
  {
    assert (prefix + s)[..|prefix|] == prefix;
  }

  /** The three values a message carries. */
  datatype Fields = Fields(to: string, subject: string, body: string)

  /** Reads a message in the route's layout back into its recipient, subject and body. */
  function Parse(msg: string): Option<Fields> {
    match FirstLf(msg)
    case None => None
    case Some(i) =>
      var line1, rest := msg[..i], msg[i + 1..];
      match FirstLf(rest)
      case None => None
      case Some(j) =>
        var line2, tail := rest[..j], rest[j + 1..];
        if StartsWith(line1, "To: ") && StartsWith(line2, "Subject: ") && StartsWith(tail, FixedHeaders)
        then Some(Fields(line1[4..], line2[9..], tail[|FixedHeaders|..]))
        else None
  }

  /** How `Parse` splits a text whose first two lines are LF-free. */
  lemma {:induction false} ParseLines(line1: string, line2: string, tail: string)
    requires '\n' !in line1 && '\n' !in line2
    ensures Parse(line1 + "\n" + (line2 + "\n" + tail)) ==
      if StartsWith(line1, "To: ") && StartsWith(line2, "Subject: ") && StartsWith(tail, FixedHeaders)
      then Some(Fields(line1[4..], line2[9..], tail[|FixedHeaders|..]))
      else None
  {
    var rest := line2 + "\n" + tail;
    var msg := line1 + "\n" + rest;
    FirstLfAfter(line1, rest);
    FirstLfAfter(line2, tail);
    assert msg[..|line1|] == line1;
    assert msg[|line1| + 1..] == rest;
    assert rest[..|line2|] == line2;
    assert rest[|line2| + 1..] == tail;
  }

  /** With LF-free header values the message reads back as what was put in. */
  lemma {:induction false} ParseComposeLfFree(to: string, subject: string, html: string)
    requires '\n' !in to && '\n' !in subject
    ensures Parse(Compose(to, subject, html)) == Some(Fields(to, subject, html))
  {
    ComposeLayout(to, subject, html);
    ParseLines("To: " + to, "Subject: " + subject, FixedHeaders + html);
    StartsWithPrefix("To: ", to);
    StartsWithPrefix("Subject: ", subject);
    StartsWithPrefix(FixedHeaders, html);
  }

  /** The first LF of `s` comes no later than any LF of `s`. */
  lemma {:induction false} FirstLfNoLater(s: string, k: nat)
    requires k < |s| && s[k] == '\n'
    ensures FirstLf(s).Some? && FirstLf(s).value <= k
  {
  }

  /** An LF inside the recipient cuts the `To:` header short. */
  lemma {:induction false} ParseComposeLfInTo(to: string, subject: string, html: string)
    requires '\n' in to
    ensures Parse(Compose(to, subject, html)).Some? ==> |Parse(Compose(to, subject, html)).value.to| < |to|
  {
    ComposeLayout(to, subject, html);
    var msg := Compose(to, subject, html);
    var k :| 0 <= k < |to| && to[k] == '\n';
    assert msg[4 + k] == '\n';
    FirstLfNoLater(msg, 4 + k);
  }

  /** With an LF-free recipient, an LF inside the subject cuts the `Subject:` header short. */
  lemma {:induction false} ParseComposeLfInSubject(to: string, subject: string, html: string)
    requires '\n' !in to && '\n' in subject
    ensures Parse(Compose(to, subject, html)).Some? ==> |Parse(Compose(to, subject, html)).value.subject| < |subject|
  {
    ComposeLayout(to, subject, html);
    var msg := Compose(to, subject, html);
    var rest1 := ("Subject: " + subject) + "\n" + (FixedHeaders + html);
    FirstLfAfter("To: " + to, rest1);
    assert msg[4 + |to| + 1..] == rest1;
    var k :| 0 <= k < |subject| && subject[k] == '\n';
    assert rest1[9 + k] == '\n';
    FirstLfNoLater(rest1, 9 + k);
  }

  /**
   * A composed message reads back as what was put in exactly when neither the
   * recipient nor the subject contains an LF: an LF there ends the header early.
   */
  lemma {:induction false} ParseCompose(to: string, subject: string, html: string)
    ensures Parse(Compose(to, subject, html)) == Some(Fields(to, subject, html)) <==> '\n' !in to && '\n' !in subject
  {
    if '\n' in to {
      ParseComposeLfInTo(to, subject, html);
    } else if '\n' in subject {
      ParseComposeLfInSubject(to, subject, html);
    } else {
      ParseComposeLfFree(to, subject, html);
    }
  }

  /** The `raw` field both routes submit: `Buffer.from(text)` in base64 with the URL-safe replacements and no padding. */
  function Raw(to: string, subject: string, html: string): string {
    Base64Url.EncodeAsRoute(Utf8.Encode(Compose(to, subject, html)))
  }

  /** What a mail server reads from a `raw` field. */
  function Recover(raw: string): Option<Fields> {
    match Base64Url.Decode(raw)
    case None => None
    case Some(bytes) =>
      match Utf8.Decode(bytes)
      case None => None
      case Some(text) => Parse(text)
  }

  /** End to end: the submitted `raw` string decodes to the intended recipient, subject and HTML body. */
  lemma {:induction false} RecoverRaw(to: string, subject: string, html: string)
    requires '\n' !in to && '\n' !in subject
    ensures Recover(Raw(to, subject, html)) == Some(Fields(to, subject, html))
  {
    var bytes := Utf8.Encode(Compose(to, subject, html));
    Base64Url.DecodeEncodeAsRoute(bytes);
    Utf8.DecodeEncode(Compose(to, subject, html));
    ParseCompose(to, subject, html);
  }

  /** The submitted `raw` string uses only `[A-Za-z0-9_-]` and has the unpadded length of the message's UTF-8 bytes. */
  lemma {:induction false} RawShape(to: string, subject: string, html: string)
    ensures |Raw(to, subject, html)| == Base64Url.UnpaddedLength(|Utf8.Encode(Compose(to, subject, html))|)
    ensures forall i :: 0 <= i < |Raw(to, subject, html)| ==> Base64Url.IsUrlSafe(Raw(to, subject, html)[i])
  {
    Base64Url.EncodeAsRouteShape(Utf8.Encode(Compose(to, subject, html)));
  }
}
