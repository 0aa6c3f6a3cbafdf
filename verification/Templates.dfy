/** HTML escaping and the variable checks of account-email-templates.ts. */
module Templates {
  import opened Prelude
  import opened Strings

  // ---- escaping ----

  /** JavaScript's `replaceAll` for a one-character pattern. */
  function ReplaceAll(s: string, c: char, with: string): string {
    if s == [] then [] else (if s[0] == c then with else [s[0]]) + ReplaceAll(s[1..], c, with)
  }

  /** The source's five passes, each over the whole result of the one before. */
  function EscapeHtml(s: string): string {
    var amp := ReplaceAll(s, '&', "&amp;");
    var lt := ReplaceAll(amp, '<', "&lt;");
    var gt := ReplaceAll(lt, '>', "&gt;");
    var quot := ReplaceAll(gt, '"', "&quot;");
    ReplaceAll(quot, '\'', "&#39;")
  }

  function Entity(c: char): string {
    match c
    case '&' => "&amp;"
    case '<' => "&lt;"
    case '>' => "&gt;"
    case '"' => "&quot;"
    case '\'' => "&#39;"
    case _ => [c]
  }

  /** One simultaneous substitution, character by character. */
  function Substitute(s: string): string {
    if s == [] then [] else Entity(s[0]) + Substitute(s[1..])
  }

  /** A reader of HTML: at each `&`, one of the five entities or a literal ampersand. */
  function Unescape(s: string): string
    decreases |s|
  {
    if s == [] then []
    else if "&amp;" <= s then "&" + Unescape(s[5..])
    else if "&lt;" <= s then "<" + Unescape(s[4..])
    else if "&gt;" <= s then ">" + Unescape(s[4..])
    else if "&quot;" <= s then "\"" + Unescape(s[6..])
    else if "&#39;" <= s then "'" + Unescape(s[5..])
    else [s[0]] + Unescape(s[1..])
  }

  lemma {:induction false} ReplaceAllConcat(a: string, b: string, c: char, with: string)
    ensures ReplaceAll(a + b, c, with) == ReplaceAll(a, c, with) + ReplaceAll(b, c, with)
  {
    if a == [] {
      assert a + b == b;
    } else {
      assert (a + b)[1..] == a[1..] + b;
      ReplaceAllConcat(a[1..], b, c, with);
    }
  }

  /** A pass leaves a string without its character alone. */
  lemma {:induction false} ReplaceAllAbsent(s: string, c: char, with: string)
    requires c !in s
    ensures ReplaceAll(s, c, with) == s
  {
    if s != [] { ReplaceAllAbsent(s[1..], c, with); }
  }

  lemma EscapeConcat(a: string, b: string)
    ensures EscapeHtml(a + b) == EscapeHtml(a) + EscapeHtml(b)
  {
    ReplaceAllConcat(a, b, '&', "&amp;");
    var a1, b1 := ReplaceAll(a, '&', "&amp;"), ReplaceAll(b, '&', "&amp;");
    ReplaceAllConcat(a1, b1, '<', "&lt;");
    var a2, b2 := ReplaceAll(a1, '<', "&lt;"), ReplaceAll(b1, '<', "&lt;");
    ReplaceAllConcat(a2, b2, '>', "&gt;");
    var a3, b3 := ReplaceAll(a2, '>', "&gt;"), ReplaceAll(b2, '>', "&gt;");
    ReplaceAllConcat(a3, b3, '"', "&quot;");
    ReplaceAllConcat(ReplaceAll(a3, '"', "&quot;"), ReplaceAll(b3, '"', "&quot;"), '\'', "&#39;");
  }

  lemma ReplaceOne(d: char, c: char, with: string)
    ensures ReplaceAll([d], c, with) == if d == c then with else [d]
  {
    assert ReplaceAll([d][1..], c, with) == [];
  }

  /** The passes for the quotes, on a string that has none. */
  lemma QuotePassesAbsent(s: string)
    requires '"' !in s && '\'' !in s
    ensures ReplaceAll(ReplaceAll(s, '"', "&quot;"), '\'', "&#39;") == s
  {
    ReplaceAllAbsent(s, '"', "&quot;");
    ReplaceAllAbsent(s, '\'', "&#39;");
  }

  /** An entity written by the first pass is not touched by the later ones. */
  lemma EscapeAmpersand(c: char)
    requires c == '&'
    ensures EscapeHtml([c]) == Entity(c)
  {
    var e := Entity(c);
    ReplaceOne(c, '&', e);
    ReplaceAllAbsent(e, '<', "&lt;");
    ReplaceAllAbsent(e, '>', "&gt;");
    QuotePassesAbsent(e);
  }

  lemma EscapeLess(c: char)
    requires c == '<'
    ensures EscapeHtml([c]) == Entity(c)
  {
    var e := Entity(c);
    ReplaceOne(c, '&', "&amp;");
    ReplaceOne(c, '<', e);
    ReplaceAllAbsent(e, '>', "&gt;");
    QuotePassesAbsent(e);
  }

  lemma EscapeGreater(c: char)
    requires c == '>'
    ensures EscapeHtml([c]) == Entity(c)
  {
    var e := Entity(c);
    ReplaceOne(c, '&', "&amp;");
    ReplaceOne(c, '<', "&lt;");
    ReplaceOne(c, '>', e);
    QuotePassesAbsent(e);
  }

  lemma EscapeOther(c: char)
    requires c != '<' && c != '>' && c != '&'
    ensures EscapeHtml([c]) == Entity(c)
  {
    ReplaceOne(c, '&', "&amp;");
    ReplaceOne(c, '<', "&lt;");
    ReplaceOne(c, '>', "&gt;");
    ReplaceOne(c, '"', "&quot;");
    ReplaceOne(c, '\'', "&#39;");
    ReplaceAllAbsent("&quot;", '\'', "&#39;");
  }

  lemma EscapeOne(c: char)
    ensures EscapeHtml([c]) == Entity(c)
  {
    if c == '&' {
      EscapeAmpersand(c);
    } else if c == '<' {
      EscapeLess(c);
    } else if c == '>' {
      EscapeGreater(c);
    } else {
      EscapeOther(c);
    }
  }

  /** Five passes equal one simultaneous substitution: nothing is escaped twice. */
  lemma {:induction false} EscapeIsSubstitution(s: string)
    ensures EscapeHtml(s) == Substitute(s)
  {
    if s != [] {
      assert s == [s[0]] + s[1..];
      EscapeConcat([s[0]], s[1..]);
      EscapeOne(s[0]);
      EscapeIsSubstitution(s[1..]);
    }
  }

  lemma EscapedIsInert(s: string)
    ensures '<' !in EscapeHtml(s) && '>' !in EscapeHtml(s)
    ensures '"' !in EscapeHtml(s) && '\'' !in EscapeHtml(s)
  {
    EscapeIsSubstitution(s);
    SubstitutedIsInert(s);
  }

  lemma {:induction false} SubstitutedIsInert(s: string)
    ensures forall c :: c in Substitute(s) ==> c !in "<>\"'"
  {
    if s != [] { SubstitutedIsInert(s[1..]); }
  }

  /** Whatever the user typed is what the reader sees. */
  lemma UnescapeInverts(s: string)
    ensures Unescape(EscapeHtml(s)) == s
  {
    EscapeIsSubstitution(s);
    UnescapeSubstitute(s);
  }

  lemma {:induction false} UnescapeSubstitute(s: string)
    ensures Unescape(Substitute(s)) == s
  {
    if s != [] {
      var rest := Substitute(s[1..]);
      var e := Entity(s[0]);
      UnescapeSubstitute(s[1..]);
      assert (e + rest)[|e|..] == rest;
      EntityFirst(s[0], rest);
    }
  }

  lemma EntityFirst(c: char, rest: string)
    ensures Unescape(Entity(c) + rest) == [c] + Unescape(rest)
  {
    var e := Entity(c);
    assert (e + rest)[|e|..] == rest;
    assert e <= e + rest;
    assert (e + rest)[0] == e[0];
    if c == '<' || c == '>' || c == '"' || c == '\'' || c == '&' {
      assert (e + rest)[1] == e[1];
    }
  }

  // ---- variable checks ----

  /** A JSON value of the `variables` column. `Instant` is the text `toISOString` writes. */
  datatype Json = Text(s: string) | Instant(ms: int) | Integer(n: int) | Other

  type Variables = map<string, Json>

  datatype Reason = InvalidTemplate | InvalidLocale | InvalidVariables | TemplateFailed

  const VERIFY := "verify-new-email"
  const EMAIL_CHANGED := "email-changed-notice"
  const PASSWORD_CHANGED := "password-changed-notice"

  predicate KnownTemplate(t: string) { t in {VERIFY, EMAIL_CHANGED, PASSWORD_CHANGED} }

  predicate KnownLocale(l: string) { l in {"th", "en"} }

  predicate NonEmptyText(v: Variables, key: string) {
    key in v && (v[key].Instant? || (v[key].Text? && |v[key].s| > 0))
  }

  predicate VariablesOk(template: string, v: Variables) {
    if template == VERIFY then
      && NonEmptyText(v, "token") && (v["token"].Text? ==> |v["token"].s| <= 512)
      && "expiresInMinutes" in v && v["expiresInMinutes"].Integer? && v["expiresInMinutes"].n > 0
    else if template == EMAIL_CHANGED then
      && NonEmptyText(v, "newEmail") && v["newEmail"].Text? && '@' in v["newEmail"].s
      && NonEmptyText(v, "changedAt")
    else
      template == PASSWORD_CHANGED && NonEmptyText(v, "changedAt")
  }

  /** `^[^\s@]+@[^\s@]+$`, at most 320 long. */
  predicate RecipientOk(r: string) {
    && |r| <= 320
    && exists at :: 0 < at < |r| - 1 && r[at] == '@'
                    && forall k :: 0 <= k < |r| && k != at ==> r[k] != '@' && !IsSpace(r[k])
  }

  predicate DedupeKeyOk(key: string) { 1 <= |key| <= 200 }

  /** The refusals of `enqueueAccountEmail`, in order. */
  function EnqueueRefusal(
      template: string, locale: string, recipient: string, v: Variables, key: string): Option<Reason> {
    if !KnownTemplate(template) then Some(InvalidTemplate)
    else if !KnownLocale(locale) then Some(InvalidLocale)
    else if !VariablesOk(template, v) || !RecipientOk(recipient) || !DedupeKeyOk(key) then Some(InvalidVariables)
    else None
  }

  /**
    What rendering needs: the console origin, the time zone of the dispatcher's options, and what the
    platform can do: which texts its `Date` reads and which zones its `Intl` knows.
  */
  datatype RenderOptions = RenderOptions(
    console: ConsoleUrl, timeZone: Option<string>, parses: string -> bool, knowsZone: string -> bool)

  const DEFAULT_ZONE := "Asia/Bangkok"

  /** An empty name counts as none. */
  function Zone(opts: RenderOptions): string {
    if opts.timeZone.Some? && opts.timeZone.value != "" then opts.timeZone.value else DEFAULT_ZONE
  }

  datatype ConsoleUrl = Secure | Insecure | Malformed

  function ConsoleRefusal(url: ConsoleUrl): Option<Reason> {
    match url
    case Secure => None
    case Insecure => Some(InvalidVariables)
    case Malformed => Some(TemplateFailed)
  }

  /** `formatTime` accepts a text that JavaScript's `Date` can read. */
  predicate DateOk(opts: RenderOptions, v: Json) {
    v.Instant? || (v.Text? && opts.parses(v.s))
  }

  /** `formatTime`: a RangeError of `Intl` is no template error and ends as TEMPLATE_FAILED. */
  function TimeRefusal(opts: RenderOptions, v: Json): Option<Reason> {
    if !DateOk(opts, v) then Some(InvalidVariables)
    else if !opts.knowsZone(Zone(opts)) then Some(TemplateFailed)
    else None
  }

  /** Why `renderAccountEmail` throws, or None when it returns an e-mail. */
  function RenderRefusal(template: string, locale: string, v: Variables, opts: RenderOptions): Option<Reason> {
    if !KnownTemplate(template) then Some(InvalidTemplate)
    else if !KnownLocale(locale) then Some(InvalidLocale)
    else if !VariablesOk(template, v) then Some(InvalidVariables)
    else if template != VERIFY && TimeRefusal(opts, v["changedAt"]).Some? then TimeRefusal(opts, v["changedAt"])
    else ConsoleRefusal(opts.console)
  }

  /**
    The enqueue checks are the render checks except for the date and the zone: an accepted e-mail
    renders exactly when the console origin is good and, for the two notices, `changedAt` is a date and
    the time zone is known.
  */
  lemma AcceptedRendersIff(
      template: string, locale: string, recipient: string, v: Variables, key: string, opts: RenderOptions)
    requires EnqueueRefusal(template, locale, recipient, v, key) == None
    ensures RenderRefusal(template, locale, v, opts) == None <==>
            && opts.console == Secure
            && (template == VERIFY || ("changedAt" in v && DateOk(opts, v["changedAt"]) && opts.knowsZone(Zone(opts))))
  {
    if template == EMAIL_CHANGED || template == PASSWORD_CHANGED {
      assert NonEmptyText(v, "changedAt");
    }
  }

  /** With a zone the platform does not know, every accepted notice dies, whatever its date says. */
  lemma UnknownZoneKillsNotices(
      template: string, locale: string, recipient: string, v: Variables, key: string, opts: RenderOptions)
    requires EnqueueRefusal(template, locale, recipient, v, key) == None && template != VERIFY
    requires !opts.knowsZone(Zone(opts))
    ensures "changedAt" in v
    ensures RenderRefusal(template, locale, v, opts)
            == Some(if DateOk(opts, v["changedAt"]) then TemplateFailed else InvalidVariables)
  {
    assert NonEmptyText(v, "changedAt");
  }

  /** An accepted notice that dies at dispatch, whatever the date parser says about other texts. */
  lemma UnreadableDateIsAccepted(bad: string, opts: RenderOptions)
    requires |bad| > 0 && !opts.parses(bad) && opts.console == Secure
    ensures var v := map["changedAt" := Text(bad)];
            && EnqueueRefusal(PASSWORD_CHANGED, "en", "a@b", v, "k") == None
            && RenderRefusal(PASSWORD_CHANGED, "en", v, opts) == Some(InvalidVariables)
  {
    var r := "a@b";
    assert 0 < 1 < |r| - 1 && r[1] == '@';
    assert forall k :: 0 <= k < |r| && k != 1 ==> r[k] != '@' && !IsSpace(r[k]);
  }

  // ---- the checks, written out ----

  /** `^[^\s@]+@[^\s@]+$` in two parts. */
  predicate Mailbox(s: string, a: string, b: string) {
    && s == a + "@" + b && a != [] && b != []
    && (forall k :: 0 <= k < |a| ==> a[k] != '@' && !IsSpace(a[k]))
    && (forall k :: 0 <= k < |b| ==> b[k] != '@' && !IsSpace(b[k]))
  }

  lemma RecipientIff(r: string)
    ensures RecipientOk(r) <==> |r| <= 320 && exists a, b :: Mailbox(r, a, b)
  {
    if RecipientOk(r) {
      var at :| 0 < at < |r| - 1 && r[at] == '@'
                && forall k :: 0 <= k < |r| && k != at ==> r[k] != '@' && !IsSpace(r[k]);
      var a, b := r[..at], r[at + 1..];
      assert r == a + [r[at]] + b;
      assert Mailbox(r, a, b);
    }
    forall a, b | |r| <= 320 && Mailbox(r, a, b) ensures RecipientOk(r) {
      var at := |a|;
      assert r[at] == '@';
      forall k | 0 <= k < |r| && k != at ensures r[k] != '@' && !IsSpace(r[k]) {
        assert k < at ==> r[k] == a[k];
        assert k > at ==> r[k] == b[k - at - 1];
      }
    }
  }

  /** A text that is not empty; a date counts as one. */
  predicate Filled(v: Variables, key: string) {
    key in v && v[key] != Text("") && (v[key].Text? || v[key].Instant?)
  }

  /** The variables that each of the three templates asks for. */
  ghost predicate Carries(template: string, v: Variables) {
    || (template == "verify-new-email" && Filled(v, "token") && (v["token"].Text? ==> |v["token"].s| <= 512)
        && exists n :: "expiresInMinutes" in v && v["expiresInMinutes"] == Integer(n) && n >= 1)
    || (template == "email-changed-notice" && Filled(v, "newEmail") && v["newEmail"].Text? && '@' in v["newEmail"].s
        && Filled(v, "changedAt"))
    || (template == "password-changed-notice" && Filled(v, "changedAt"))
  }

  /** The zone of the options, and Bangkok's where there is none or an empty name. */
  lemma ZoneMeaning(opts: RenderOptions)
    ensures opts.timeZone == None || opts.timeZone == Some("") ==> Zone(opts) == "Asia/Bangkok"
    ensures opts.timeZone != None && opts.timeZone != Some("") ==> Some(Zone(opts)) == opts.timeZone
  {
  }

  /** What an e-mail must be to be put in the outbox, and the refusals, the first that applies. */
  lemma EnqueueAnswers(template: string, locale: string, recipient: string, v: Variables, key: string)
    ensures var refusal := EnqueueRefusal(template, locale, recipient, v, key);
            var known := template in {"verify-new-email", "email-changed-notice", "password-changed-notice"};
            var spoken := locale == "th" || locale == "en";
            var good := Carries(template, v) && RecipientOk(recipient) && 1 <= |key| <= 200;
            && (refusal == None <==> known && spoken && good)
            && (refusal == Some(InvalidTemplate) <==> !known)
            && (refusal == Some(InvalidLocale) <==> known && !spoken)
            && (refusal == Some(InvalidVariables) <==> known && spoken && !good)
  {
    forall k ensures NonEmptyText(v, k) <==> Filled(v, k) { FilledIff(v, k); }
    if "expiresInMinutes" in v && v["expiresInMinutes"].Integer? {
      assert v["expiresInMinutes"] == Integer(v["expiresInMinutes"].n);
    }
  }

  lemma FilledIff(v: Variables, key: string)
    ensures NonEmptyText(v, key) <==> Filled(v, key)
  {
    if key in v && v[key].Text? { assert |v[key].s| > 0 <==> v[key].s != ""; }
  }

  /** When an e-mail renders, and the failures, the first that applies. */
  lemma RenderAnswers(template: string, locale: string, v: Variables, opts: RenderOptions)
    ensures var refusal := RenderRefusal(template, locale, v, opts);
            var known := template in {"verify-new-email", "email-changed-notice", "password-changed-notice"};
            var asked := known && (locale == "th" || locale == "en") && Carries(template, v);
            var notice := template != "verify-new-email";
            var dated := asked && (notice ==> v["changedAt"].Instant? || opts.parses(v["changedAt"].s));
            var timed := dated && (notice ==> opts.knowsZone(Zone(opts)));
            && (refusal == None <==> timed && opts.console == Secure)
            && (refusal == Some(InvalidTemplate) <==> !known)
            && (refusal == Some(InvalidLocale) <==> known && locale != "th" && locale != "en")
            && (refusal == Some(TemplateFailed) <==> (dated && !timed) || (timed && opts.console == Malformed))
            && (refusal == Some(InvalidVariables) <==>
                  known && (locale == "th" || locale == "en") && (!dated || (timed && opts.console == Insecure)))
  {
    forall k ensures NonEmptyText(v, k) <==> Filled(v, k) { FilledIff(v, k); }
    if "expiresInMinutes" in v && v["expiresInMinutes"].Integer? {
      assert v["expiresInMinutes"] == Integer(v["expiresInMinutes"].n);
    }
  }
}
