/**
  The values that flow through the mail log ingestor: parsed entries, stitched
  transactions and the status test that both stitching implementations share.

  Instants and durations are integers (nanoseconds).  Text is `string`, one
  character per byte of the log file.
 */
module MailLog {

  datatype Option<+T> = None | Some(value: T)

  /** One parsed line.  A nil field of the source is `None` here. */
  datatype LogEntry = LogEntry(
    ts: int,
    host: string,
    process: string,
    queueId: string,
    mailFrom: string,
    mailTo: string,
    status: string,
    relay: string,
    delay: Option<real>,
    delays: string,
    dsn: string,
    messageId: string,
    sizeBytes: Option<int>,
    queuedAs: string,
    mailId: string,
    subject: string,
    hits: Option<real>,
    helo: string,
    amavisOrigin: string,
    isJunk: bool,
    spamScore: Option<real>,
    raw: string,
    rawHash: string)
  {
    /** The parser stores the trimmed, non-empty line, which came from between two newlines. */
    predicate HasLineText() {
      raw != "" && '\n' !in raw
    }
  }

  datatype MailTransaction = MailTransaction(
    arrival: int,
    last: int,
    queueId: string,
    host: string,
    process: string,
    sender: string,
    recipient: string,
    status: string,
    relay: string,
    delay: Option<real>,
    delays: string,
    dsn: string,
    messageId: string,
    sizeBytes: Option<int>,
    queuedAs: string,
    mailId: string,
    subject: string,
    hits: Option<real>,
    helo: string,
    amavisOrigin: string,
    isJunk: bool,
    spamScore: real,
    timedOut: bool,
    raw: seq<string>)

  function LowerChar(c: char): char {
    if 'A' <= c <= 'Z' then c - 'A' + 'a' else c
  }

  /**
    Lower-casing restricted to ASCII.  No other character lower-cases to one of the
    letters of "sent" or "bounced", so the status test below is unaffected.
   */
  function ToLower(s: string): (r: string)
    ensures |r| == |s|
  {
    seq(|s|, i requires 0 <= i < |s| => LowerChar(s[i]))
  }

  predicate IsTerminalStatus(status: string) {
    var lower := ToLower(status);
    lower == "sent" || lower == "bounced"
  }

  /** `s` is the lower-case word `word`, each letter written small or as its capital. */
  predicate Spells(s: string, word: string) {
    && |s| == |word|
    && forall i :: 0 <= i < |s| ==> s[i] == word[i] || s[i] as int == word[i] as int - 32
  }

  /** A status is terminal exactly when it spells one of the two words, in any mixture of case. */
  lemma TerminalIff(status: string)
    ensures IsTerminalStatus(status) <==> Spells(status, "sent") || Spells(status, "bounced")
  {
    LowerIffSpells(status, "sent");
    LowerIffSpells(status, "bounced");
  }

  lemma LowerIffSpells(s: string, word: string)
    requires forall i :: 0 <= i < |word| ==> 'a' <= word[i] <= 'z'
    ensures ToLower(s) == word <==> Spells(s, word)
  {
    if |s| == |word| {
      forall i | 0 <= i < |s|
        ensures ToLower(s)[i] == word[i] <==> s[i] == word[i] || s[i] as int == word[i] as int - 32
      {
        assert 'a' <= word[i] <= 'z';
      }
      if Spells(s, word) {
        assert ToLower(s) == word;
      }
    }
  }

  /** Delivered and bounced mail closes its queue; mail put off or given up by age does not. */
  lemma TerminalWords()
    ensures IsTerminalStatus("sent") && IsTerminalStatus("bounced")
    ensures IsTerminalStatus("Sent") && IsTerminalStatus("BOUNCED")
    ensures !IsTerminalStatus("") && !IsTerminalStatus("deferred") && !IsTerminalStatus("expired")
    ensures !IsTerminalStatus("timed_out")
  {
    TerminalIff("sent");
    TerminalIff("bounced");
    TerminalIff("Sent");
    TerminalIff("BOUNCED");
    TerminalIff("deferred");
    NotSpelled("expired", "bounced", 0);
    TerminalIff("expired");
    TerminalIff("timed_out");
  }

  lemma NotSpelled(s: string, word: string, i: nat)
    requires i < |s| && i < |word| && s[i] != word[i] && s[i] as int != word[i] as int - 32
    ensures !Spells(s, word)
  {
  }

  /** Neither the empty status nor the one eviction writes is terminal. */
  lemma TerminalStatusLength(status: string)
    requires IsTerminalStatus(status)
    ensures |status| == 4 || |status| == 7
    ensures status != "" && status != "timed_out"
  {
    var lower := ToLower(status);
    assert |"sent"| == 4 && |"bounced"| == 7 && |"timed_out"| == 9;
  }

  /** Overwriting a non-terminal status closes exactly when the supplied one does. */
  lemma StatusAfterMerge(kept: string, supplied: string)
    requires !IsTerminalStatus(kept)
    ensures IsTerminalStatus(if supplied != "" then supplied else kept) <==> IsTerminalStatus(supplied)
  {
    if IsTerminalStatus(supplied) {
      TerminalStatusLength(supplied);
    }
  }
}
