/**
 * The pure text handling of telegram_bot.py: the conversion of the
 * trainer's HTML-flavoured reply into plain Telegram text, the notice a
 * blocked user sees, and the per-day session id of a chat.
 */
module TelegramBot {
  import opened Wrappers
  import opened Text
  import TelegramAuth

  const NoAnswer: string := "Keine Antwort erhalten."
  const Newline: string := "\n"

  // ------------------------------------------------------- line breaks

  /** The three spellings of a line break the trainer may emit. */
  predicate HasBreakTag(s: string) {
    Contains(s, "<br>") || Contains(s, "<br/>") || Contains(s, "<br />")
  }

  /**
   * Each `<br>`, `<br/>` and `<br />` becomes a newline, in that order of
   * replacement: no spelling of a line break survives, and text without a
   * `<` passes unchanged.
   */
  function BreaksToNewlines(s: string): (r: string)
    ensures !HasBreakTag(r)
    ensures '<' !in s ==> r == s
  {
    var s1 := Replace(s, "<br>", Newline);
    var s2 := Replace(s1, "<br/>", Newline);
    ReplaceLeavesNoOccurrence(s, "<br>", Newline, "<br>");
    ReplaceLeavesNoOccurrence(s1, "<br/>", Newline, "<br>");
    ReplaceLeavesNoOccurrence(s1, "<br/>", Newline, "<br/>");
    ReplaceLeavesNoOccurrence(s2, "<br />", Newline, "<br>");
    ReplaceLeavesNoOccurrence(s2, "<br />", Newline, "<br/>");
    ReplaceLeavesNoOccurrence(s2, "<br />", Newline, "<br />");
    assert '<' !in s ==> Replace(s2, "<br />", Newline) == s by {
      if '<' !in s {
        AbsentFirstChar(s, "<br>");
        ReplaceAbsent(s, "<br>", Newline);
        AbsentFirstChar(s, "<br/>");
        ReplaceAbsent(s, "<br/>", Newline);
        AbsentFirstChar(s, "<br />");
        ReplaceAbsent(s, "<br />", Newline);
      }
    }
    Replace(s2, "<br />", Newline)
  }

  // ------------------------------------------------------------- tags

  /**
   * The length of the match of `<[^>]+>` at the start of `s`, or 0 when it
   * does not match there: a `<`, at least one character other than `>`,
   * and the first `>` after it.
   */
  function TagAt(s: string): (n: nat)
    ensures n == 0 || (3 <= n <= |s| && s[0] == '<' && s[n - 1] == '>'
                       && forall i :: 1 <= i < n - 1 ==> s[i] != '>')
    ensures n == 0 && s != [] && s[0] == '<' ==> '>' !in s[1..] || s[1] == '>'
  {
    if s != [] && s[0] == '<' then
      var k := 1 + IndexOf(s[1..], '>');
      if 2 <= k < |s| then k + 1 else 0
    else 0
  }

  /** `re.sub(r'<[^>]+>', '', s)`: every match, leftmost first and without overlap, is deleted. */
  function RemoveTags(s: string): (r: string)
    ensures |r| <= |s|
    ensures forall i :: 0 <= i < |r| ==> r[i] in s
    decreases |s|
  {
    if s == [] then []
    else if TagAt(s) > 0 then RemoveTags(s[TagAt(s)..])
    else [s[0]] + RemoveTags(s[1..])
  }

  /** No position of `s` starts a match of `<[^>]+>`. */
  predicate TagFree(s: string) {
    forall i :: 0 <= i < |s| ==> TagAt(s[i..]) == 0
  }

  lemma TagFreeTail(c: char, t: string)
    requires TagFree(t) && TagAt([c] + t) == 0
    ensures TagFree([c] + t)
  {
    var s := [c] + t;
    forall i | 0 <= i < |s| ensures TagAt(s[i..]) == 0 {
      if i > 0 {
        assert s[i..] == t[i - 1..];
      }
    }
  }

  /** After the substitution no match is left: deleting a tag never forms a new one. */
  lemma {:induction false} RemoveTagsLeavesNoTag(s: string)
    ensures TagFree(RemoveTags(s))
    decreases |s|
  {
    if s == [] {
    } else if TagAt(s) > 0 {
      RemoveTagsLeavesNoTag(s[TagAt(s)..]);
    } else {
      var rest := RemoveTags(s[1..]);
      RemoveTagsLeavesNoTag(s[1..]);
      var r := [s[0]] + rest;
      if s[0] == '<' {
        if |s| > 1 && s[1] == '>' {
          assert s[1..] != [] && TagAt(s[1..]) == 0;
          assert rest[0] == '>';
          assert r[1..] == rest;
          assert IndexOf(r[1..], '>') == 0;
        } else {
          assert '>' !in s[1..];
          assert '>' !in rest;
          assert r[1..] == rest;
          assert IndexOf(r[1..], '>') == |rest|;
        }
      }
      TagFreeTail(s[0], rest);
    }
  }

  /** Text without a match is left as it is. */
  lemma {:induction false} RemoveTagsKeepsTagFree(s: string)
    requires TagFree(s)
    ensures RemoveTags(s) == s
    decreases |s|
  {
    if s != [] {
      assert s[0..] == s;
      forall i | 0 <= i < |s[1..]| ensures TagAt(s[1..][i..]) == 0 {
        assert s[1..][i..] == s[i + 1..];
      }
      RemoveTagsKeepsTagFree(s[1..]);
    }
  }

  lemma RemoveTagsIdempotent(s: string)
    ensures RemoveTags(RemoveTags(s)) == RemoveTags(s)
  {
    RemoveTagsLeavesNoTag(s);
    RemoveTagsKeepsTagFree(RemoveTags(s));
  }

  /** Text without a `<` has no tag. */
  lemma PlainTextTagFree(s: string)
    requires '<' !in s
    ensures TagFree(s)
  {
    forall i | 0 <= i < |s| ensures TagAt(s[i..]) == 0 {
      assert s[i..][0] == s[i];
    }
  }

  // ------------------------------------------------------------ lines

  /** `line.strip() for line in lines if line.strip()`. */
  function CleanedLines(lines: seq<string>): (r: seq<string>)
    ensures |r| <= |lines|
    ensures forall line :: line in r ==> line != [] && Trimmed(line)
    ensures (forall line :: line in lines ==> '\n' !in line) ==>
              forall line :: line in r ==> '\n' !in line
  {
    if lines == [] then []
    else
      var rest := CleanedLines(lines[1..]);
      if Blank(lines[0]) then rest
      else
        assert forall c :: c in Strip(lines[0]) ==> c in lines[0] by {
          forall c | c in Strip(lines[0]) ensures c in lines[0] { StripChars(lines[0], c); }
        }
        [Strip(lines[0])] + rest
  }

  /** Lines that are already clean are all kept, unchanged. */
  lemma {:induction false} CleanedLinesKeepsCleanLines(lines: seq<string>)
    requires forall i :: 0 <= i < |lines| ==> lines[i] != [] && Trimmed(lines[i])
    ensures CleanedLines(lines) == lines
  {
    if lines != [] {
      StripFixedPoint(lines[0]);
      CleanedLinesKeepsCleanLines(lines[1..]);
      assert lines == [lines[0]] + lines[1..];
    }
  }

  /** The tag-free text the line clean-up works on. */
  function Detagged(response: string): string {
    RemoveTags(BreaksToNewlines(response))
  }

  /** Whether the line clean-up leaves anything. */
  predicate HasContent(response: string) {
    CleanedLines(Split(Detagged(response), '\n')) != []
  }

  /**
   * `_format_response_for_telegram(response)`: the fallback for an empty
   * response or one that cleans up to nothing; otherwise lines, each
   * stripped and none blank, joined by a single newline.
   */
  function FormatResponse(response: string): (r: string)
    ensures r != []
    ensures response == [] || !HasContent(response) ==> r == NoAnswer
    ensures response != [] && HasContent(response) ==>
              && Split(r, '\n') == CleanedLines(Split(Detagged(response), '\n'))
              && (forall i :: 0 <= i < |Split(r, '\n')| ==> Split(r, '\n')[i] != [] && Trimmed(Split(r, '\n')[i]))
              && r[0] != '\n' && r[|r| - 1] != '\n'
              && forall k :: 0 <= k < |r| - 1 ==> !(r[k] == '\n' && r[k + 1] == '\n')
  {
    if response == [] then NoAnswer
    else
      var raw := Split(Detagged(response), '\n');
      var lines := CleanedLines(raw);
      var joined := Join(lines, Newline);
      if lines == [] then NoAnswer
      else
        assert forall line :: line in raw ==> '\n' !in line;
        assert forall i :: 0 <= i < |lines| ==> lines[i] in lines;
        SplitJoin(lines, '\n');
        JoinNoDoubleSeparator(lines, '\n');
        joined
  }

  /** A one-line reply without markup and without surrounding whitespace reaches the user unchanged. */
  lemma PlainReplyUnchanged(s: string)
    requires s != [] && Trimmed(s) && '<' !in s && '\n' !in s
    ensures FormatResponse(s) == s
  {
    PlainTextTagFree(s);
    RemoveTagsKeepsTagFree(s);
    SplitJoin([s], '\n');
    assert Join([s], Newline) == s;
    CleanedLinesKeepsCleanLines([s]);
  }

  // ------------------------------------------------------- block notice

  /** `d` reads as `r` seconds in the form minutes, a colon, two digits of seconds below sixty. */
  predicate ReadsAsSeconds(d: string, r: nat) {
    var colon := IndexOf(d, ':');
    && colon < |d|
    && AllDigits(d[..colon]) && AllDigits(d[colon + 1..]) && |d[colon + 1..]| == 2
    && DigitsValue(d[colon + 1..]) < 60
    && DigitsValue(d[..colon]) * 60 + DigitsValue(d[colon + 1..]) == r
  }

  /** `f"{minutes}:{seconds:02d}"` with `minutes, seconds = r // 60, r % 60`: it reads back as `r`. */
  function ClockDisplay(r: nat): (d: string)
    ensures ReadsAsSeconds(d, r)
  {
    var m, sec := NatToString(r / 60), PadTwo(r % 60);
    NatToStringValue(r / 60);
    ClockParts(m, sec);
    m + ":" + sec
  }

  lemma ClockParts(m: string, sec: string)
    requires AllDigits(m) && AllDigits(sec) && |sec| == 2 && DigitsValue(sec) < 60
    ensures ReadsAsSeconds(m + ":" + sec, DigitsValue(m) * 60 + DigitsValue(sec))
  {
    assert ':' !in m by {
      forall i | 0 <= i < |m| ensures m[i] != ':' { assert IsDigit(m[i]); }
    }
    IndexOfAfterPrefix(m, ':', sec);
    assert (m + ":" + sec)[..|m|] == m && (m + ":" + sec)[|m| + 1..] == sec;
  }

  /** Every block is at most ten minutes, so the minutes part never exceeds "10". */
  lemma ClockDisplayOfBlock(r: nat)
    requires r <= TelegramAuth.BlockSeconds
    ensures |ClockDisplay(r)| <= 5
  {
  }

  const NoticeHead: string := "Zu viele fehlgeschlagene Versuche. Bitte warte noch "
  const NoticeTail: string := " Minuten."

  /**
   * The reply `_handle_authentication` sends instead of trying the password,
   * if any: sent exactly for a positive remaining time, and the clock between
   * its fixed head and tail reads back as that time.
   */
  function BlockNotice(remaining: Option<int>): (notice: Option<string>)
    ensures notice.Some? <==> remaining.Some? && remaining.value > 0
    ensures notice.Some? ==>
              var n := notice.value;
              && |NoticeHead| + |NoticeTail| < |n|
              && n[..|NoticeHead|] == NoticeHead && n[|n| - |NoticeTail|..] == NoticeTail
              && ReadsAsSeconds(n[|NoticeHead|..|n| - |NoticeTail|], remaining.value)
  {
    if remaining.Some? && remaining.value > 0 then
      var d := ClockDisplay(remaining.value);
      var n := NoticeHead + d + NoticeTail;
      assert n[..|NoticeHead|] == NoticeHead && n[|n| - |NoticeTail|..] == NoticeTail;
      assert n[|NoticeHead|..|n| - |NoticeTail|] == d;
      Some(n)
    else None
  }

  /** The notice appears exactly when the login would be refused as rate-limited. */
  lemma NoticeExactlyWhenBlocked(t: TelegramAuth.AttemptTable, u: int, now: int)
    ensures BlockNotice(TelegramAuth.RemainingBlockTime(t, u, now)).Some? <==> TelegramAuth.IsBlocked(t, u, now)
  {
    TelegramAuth.RemainingTimeAgreesWithBlock(t, u, now);
  }

  // --------------------------------------------------------- session id

  /** A calendar day as `datetime.now()` gives it. */
  datatype Date = Date(year: nat, month: nat, day: nat)

  predicate ValidDate(d: Date) {
    1 <= d.year <= 9999 && 1 <= d.month <= 12 && 1 <= d.day <= 31
  }

  /** `strftime('%Y%m%d')`: the year in decimal, then month and day in two digits each. */
  function DateStamp(d: Date): (r: string)
    requires ValidDate(d)
    ensures AllDigits(r) && |r| >= 5
  {
    NatToString(d.year) + PadTwo(d.month) + PadTwo(d.day)
  }

  lemma {:induction false} DateStampInjective(a: Date, b: Date)
    requires ValidDate(a) && ValidDate(b) && DateStamp(a) == DateStamp(b)
    ensures a == b
  {
    var s := DateStamp(a);
    var ya, ma, da := NatToString(a.year), PadTwo(a.month), PadTwo(a.day);
    var yb, mb, db := NatToString(b.year), PadTwo(b.month), PadTwo(b.day);
    assert |ya| == |yb|;
    assert s == ya + (ma + da) && s == yb + (mb + db);
    assert ya == s[..|ya|] == yb;
    assert ma + da == s[|ya|..] == mb + db;
    assert ma == (ma + da)[..2] == mb;
    assert da == (ma + da)[2..] == db;
    NatToStringInjective(a.year, b.year);
  }

  /** `f"telegram:{user_id}:{today}"`. */
  function SessionId(userId: int, today: Date): (r: string)
    requires ValidDate(today)
    ensures StartsWith(r, "telegram:")
  {
    StartsWithConcat("telegram:", IntToString(userId) + (":" + DateStamp(today)));
    "telegram:" + (IntToString(userId) + (":" + DateStamp(today)))
  }

  /** Equal texts made of a colon-free part, a colon and a rest agree in both parts. */
  lemma SplitAtColon(a1: string, b1: string, a2: string, b2: string)
    requires ':' !in a1 && ':' !in a2
    requires a1 + (":" + b1) == a2 + (":" + b2)
    ensures a1 == a2 && b1 == b2
  {
    var t := a1 + (":" + b1);
    assert t == a1 + ":" + b1 && t == a2 + ":" + b2;
    IndexOfAfterPrefix(a1, ':', b1);
    IndexOfAfterPrefix(a2, ':', b2);
    assert a1 == t[..|a1|] && a2 == t[..|a2|];
    assert b1 == t[|a1| + 1..] && b2 == t[|a2| + 1..];
  }

  /** Different users, or the same user on different days, never share a session. */
  lemma SessionIdInjective(u1: int, d1: Date, u2: int, d2: Date)
    requires ValidDate(d1) && ValidDate(d2)
    requires SessionId(u1, d1) == SessionId(u2, d2)
    ensures u1 == u2 && d1 == d2
  {
    var p := "telegram:";
    var a1, b1 := IntToString(u1), DateStamp(d1);
    var a2, b2 := IntToString(u2), DateStamp(d2);
    var t1, t2 := a1 + (":" + b1), a2 + (":" + b2);
    assert t1 == (p + t1)[|p|..] && t2 == (p + t2)[|p|..];
    SplitAtColon(a1, b1, a2, b2);
    IntToStringInjective(u1, u2);
    DateStampInjective(d1, d2);
  }
}
