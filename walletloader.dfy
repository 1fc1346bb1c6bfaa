/** Loading the wallet for a session: look for a wallet, open it, or offer to
    create one (passphrase twice, seed, backup acknowledgment), and sync the
    block chain after creation. Every race between an operation and the
    cancellation of the context is an input: `true` means the context won. */
module WalletLoader {
  import opened Types
  import opened GoStrings
  import opened TerminalPrompt
  import opened Middleware

  // ---------------------------------------------------------------------
  // The two response validators
  // ---------------------------------------------------------------------

  /** What both validators compare: the response with white space trimmed,
      then every leading and trailing quote removed; it neither begins nor
      ends with a quote. */
  function Normalize(response: string): (word: string)
    ensures word == [] || (!IsQuote(word[0]) && !IsQuote(word[|word| - 1]))
  {
    TrimQuotes(TrimSpace(response))
  }

  /** A word neither of whose ends trimming would remove. */
  predicate Bare(word: string) {
    word == [] ||
    (!IsSpace(word[0]) && !IsQuote(word[0]) && !IsSpace(word[|word| - 1]) && !IsQuote(word[|word| - 1]))
  }

  /** `response` is `word` inside any number of quotes on either side, each
      side independently, inside any amount of white space. */
  ghost predicate Padded(response: string, word: string) {
    exists lead, open, close, trail ::
      All(lead, IsSpace) && All(open, IsQuote) && All(close, IsQuote) && All(trail, IsSpace) &&
      response == lead + open + word + close + trail
  }

  lemma PaddedIntro(response: string, lead: string, open: string, word: string, close: string, trail: string)
    requires All(lead, IsSpace) && All(open, IsQuote) && All(close, IsQuote) && All(trail, IsSpace)
    requires response == lead + open + word + close + trail
    ensures Padded(response, word)
  {
  }

  lemma Assemble(response: string, lead: string, t1: string, t2: string, trail: string,
                 open: string, t3: string, word: string, close: string)
    requires response == lead + t1 && t1 == t2 + trail && t2 == open + t3 && t3 == word + close
    ensures response == lead + open + word + close + trail
  {
  }

  /** Every response is its normalised form, padded. */
  lemma NormalizedIsPadded(response: string)
    ensures Padded(response, Normalize(response))
  {
    var t1 := TrimLeft(response, IsSpace);
    TrimLeftSplit(response, IsSpace);
    var lead := response[..LeadingCount(response, IsSpace)];
    var t2 := TrimRight(t1, IsSpace);
    TrimRightSplit(t1, IsSpace);
    var trail := t1[KeptLength(t1, IsSpace)..];
    var t3 := TrimLeft(t2, IsQuote);
    TrimLeftSplit(t2, IsQuote);
    var open := t2[..LeadingCount(t2, IsQuote)];
    var word := TrimRight(t3, IsQuote);
    TrimRightSplit(t3, IsQuote);
    var close := t3[KeptLength(t3, IsQuote)..];
    Assemble(response, lead, t1, t2, trail, open, t3, word, close);
    PaddedIntro(response, lead, open, word, close, trail);
  }

  /** Quotes around a bare word neither begin nor end with white space. */
  lemma QuotedEnds(open: string, word: string, close: string)
    requires Bare(word) && All(open, IsQuote) && All(close, IsQuote)
    ensures var middle := open + word + close;
      middle == [] || (!IsSpace(middle[0]) && !IsSpace(middle[|middle| - 1]))
  {
    var middle := open + word + close;
    if open != [] { assert middle[0] == open[0]; }
    else if word != [] { assert middle[0] == word[0]; }
    else if close != [] { assert middle[0] == close[0]; }
    if close != [] { assert middle[|middle| - 1] == close[|close| - 1]; }
    else if word != [] { assert middle[|middle| - 1] == word[|word| - 1]; }
    else if open != [] { assert middle[|middle| - 1] == open[|open| - 1]; }
  }

  /** A padded bare word normalises to itself. */
  lemma PaddedNormalizes(response: string, word: string)
    requires Bare(word) && Padded(response, word)
    ensures Normalize(response) == word
  {
    var lead, open, close, trail :|
      All(lead, IsSpace) && All(open, IsQuote) && All(close, IsQuote) && All(trail, IsSpace) &&
      response == lead + open + word + close + trail;
    var middle := open + word + close;
    assert response == lead + middle + trail;
    QuotedEnds(open, word, close);
    TrimAround(lead, middle, trail, IsSpace);
    TrimAround(open, word, close, IsQuote);
  }

  /** The normalised response is `word` exactly when the response is `word`
      padded with white space and quotes. */
  lemma NormalizeIffPadded(response: string, word: string)
    requires Bare(word)
    ensures Normalize(response) == word <==> Padded(response, word)
  {
    NormalizedIsPadded(response);
    if Padded(response, word) {
      PaddedNormalizes(response, word);
    }
  }

  lemma FoldOnto(c: char, lower: char)
    requires 'a' <= lower <= 'z'
    ensures Fold(c) == lower <==> c == lower || c as int == lower as int - 32
  {
  }

  /** The spellings `strings.EqualFold` matches against "OK". */
  lemma EqualFoldOk(w: string)
    ensures EqualFold("OK", w) <==> w == "ok" || w == "oK" || w == "Ok" || w == "OK"
  {
    if EqualFold("OK", w) {
      FoldOnto(w[0], 'o');
      FoldOnto(w[1], 'k');
      assert w == [w[0], w[1]];
    }
  }

  /** The spellings `strings.EqualFold` matches against a one-letter word. */
  lemma EqualFoldLetter(letter: string, w: string)
    requires letter == "y" || letter == "N"
    ensures EqualFold(letter, w) <==>
      w == [Fold(letter[0])] || w == [(Fold(letter[0]) as int - 32) as char]
  {
    if EqualFold(letter, w) {
      FoldOnto(w[0], Fold(letter[0]));
      assert w == [w[0]];
    }
  }

  /** The backup acknowledgment: the normalised response must equal "OK"
      up to letter case. */
  function BackupValidator(response: string): (accepted: bool)
    ensures accepted <==> Normalize(response) in ["ok", "oK", "Ok", "OK"]
  {
    EqualFoldOk(Normalize(response));
    EqualFold("OK", Normalize(response))
  }

  /** The backup acknowledgment is accepted exactly when the response is
      "OK", in any letter case, padded with quotes and white space. */
  lemma BackupAccepts(response: string)
    ensures BackupValidator(response) <==>
      Padded(response, "ok") || Padded(response, "oK") || Padded(response, "Ok") || Padded(response, "OK")
  {
    NormalizeIffPadded(response, "ok");
    NormalizeIffPadded(response, "oK");
    NormalizeIffPadded(response, "Ok");
    NormalizeIffPadded(response, "OK");
  }

  /** The answer to the create-wallet offer: the normalised response must be
      empty, or "y" or "N" up to letter case. */
  function CreateOfferValidator(response: string): (accepted: bool)
    ensures accepted <==> Normalize(response) in ["", "y", "Y", "n", "N"]
  {
    EqualFoldLetter("y", Normalize(response));
    EqualFoldLetter("N", Normalize(response));
    var word := Normalize(response);
    word == "" || EqualFold("y", word) || EqualFold("N", word)
  }

  /** The answer to the offer is accepted exactly when the response is empty,
      "y", "Y", "n" or "N", padded with quotes and white space. */
  lemma CreateOfferAccepts(response: string)
    ensures CreateOfferValidator(response) <==>
      Padded(response, "") || Padded(response, "y") || Padded(response, "Y") ||
      Padded(response, "n") || Padded(response, "N")
  {
    NormalizeIffPadded(response, "");
    NormalizeIffPadded(response, "y");
    NormalizeIffPadded(response, "Y");
    NormalizeIffPadded(response, "n");
    NormalizeIffPadded(response, "N");
  }

  /** The decline test, made on the response as delivered (not on its
      normalised form): only "", "n" and "N" decline. */
  function DeclinesCreation(response: string): (declined: bool)
    ensures declined <==> response == "" || response == "n" || response == "N"
  {
    EqualFoldLetter("N", response);
    response == "" || EqualFold("N", response)
  }

  /** terminalprompt.EmptyValidator: every passphrase line is taken. */
  function AnyLine(line: string): (valid: bool)
    ensures valid
  {
    true
  }

  /** A bare word padded as given normalises to itself. */
  lemma PaddedExample(response: string, lead: string, open: string, word: string, close: string, trail: string)
    requires Bare(word) && All(lead, IsSpace) && All(open, IsQuote) && All(close, IsQuote) && All(trail, IsSpace)
    requires response == lead + open + word + close + trail
    ensures Normalize(response) == word
  {
    PaddedIntro(response, lead, open, word, close, trail);
    PaddedNormalizes(response, word);
  }

  lemma BackupPlainOk()
    ensures BackupValidator("ok")
  {
    PaddedExample("ok", "", "", "ok", "", "");
  }

  lemma BackupSpacedQuotedOk()
    ensures BackupValidator("  \"OK\"  ")
  {
    PaddedExample("  \"OK\"  ", "  ", "\"", "OK", "\"", "  ");
  }

  lemma BackupUnevenQuotesOk()
    ensures BackupValidator("\"\"ok\"")
  {
    PaddedExample("\"\"ok\"", "", "\"\"", "ok", "\"", "");
  }

  /** "OK" in any case, quoted any number of times on either side. */
  lemma BackupAcceptsExamples()
    ensures BackupValidator("ok") && BackupValidator("  \"OK\"  ") && BackupValidator("\"\"ok\"")
  {
    BackupPlainOk();
    BackupSpacedQuotedOk();
    BackupUnevenQuotesOk();
  }

  lemma BackupRefusesExamples()
    ensures !BackupValidator("K") && !BackupValidator("") && !BackupValidator("no")
  {
    assert !BackupValidator("K") by {
      PaddedExample("K", "", "", "K", "", "");
    }
    assert !BackupValidator("") by {
      PaddedExample("", "", "", "", "", "");
    }
    assert !BackupValidator("no") by {
      PaddedExample("no", "", "", "no", "", "");
    }
  }

  /** White space inside the quotes is not trimmed. */
  lemma BackupInnerSpaceExample()
    ensures Normalize("\" OK \"") == " OK " && !BackupValidator("\" OK \"")
  {
    assert TrimSpace("\" OK \"") == "\" OK \"" by {
      TrimAround("", "\" OK \"", "", IsSpace);
      assert "" + "\" OK \"" + "" == "\" OK \"";
    }
    assert TrimQuotes("\" OK \"") == " OK " by {
      TrimAround("\"", " OK ", "\"", IsQuote);
      assert "\"" + " OK " + "\"" == "\" OK \"";
    }
  }

  lemma QuotedNo()
    ensures Normalize("\"n\"") == "n"
  {
    PaddedExample("\"n\"", "", "\"", "n", "\"", "");
  }

  lemma SpacedNo()
    ensures Normalize(" n") == "n"
  {
    PaddedExample(" n", " ", "", "n", "", "");
  }

  /** A quoted or space-padded "n" is a valid answer to the offer, yet it
      does not decline: the wallet creation goes ahead. */
  lemma PaddedNoDoesNotDecline()
    ensures CreateOfferValidator("\"n\"") && !DeclinesCreation("\"n\"")
    ensures CreateOfferValidator(" n") && !DeclinesCreation(" n")
  {
    QuotedNo();
    SpacedNo();
  }

  // ---------------------------------------------------------------------
  // The flows, as functions of the middleware script and the typed lines
  // ---------------------------------------------------------------------

  /** The outcome of a loader operation: the error it returns (None for nil),
      the middleware calls it made, in order, and the lines left unread. */
  datatype Flow = Flow(err: Option<Error>, calls: seq<Call>, rest: seq<string>)

  /** The first value sent on the sync-done channel. */
  datatype Delivery = Sent(err: Option<Error>) | NothingSent

  /** Event `i` is the first SyncEnded callback. */
  predicate FirstEndedAt(events: seq<SyncEvent>, i: int) {
    0 <= i < |events| && events[i].SyncEnded? && forall j :: 0 <= j < i ==> !events[j].SyncEnded?
  }

  /** The listener's SyncEnded callback sends the error it is given; a sync
      that fails to start sends its start error. The first send wins. */
  function FirstSent(events: seq<SyncEvent>, startErr: Option<Error>): (d: Delivery)
    ensures (forall i :: 0 <= i < |events| ==> !events[i].SyncEnded?) ==>
      d == (if startErr.Some? then Sent(startErr) else NothingSent)
    ensures forall i :: FirstEndedAt(events, i) ==> d == Sent(events[i].err)
    decreases |events|
  {
    if events == [] then
      (if startErr.Some? then Sent(startErr) else NothingSent)
    else if events[0].SyncEnded? then
      Sent(events[0].err)
    else
      var d := FirstSent(events[1..], startErr);
      assert forall i :: 0 < i < |events| ==> events[i] == events[1..][i - 1];
      d
  }

  /** What syncBlockChain returns. */
  function SyncOutcome(s: Script, canceled: bool): (err: Option<Error>)
    ensures canceled ==> err == Some(Canceled)
    ensures err.None? ==>
      exists i :: 0 <= i < |s.syncEvents| && s.syncEvents[i] == SyncEnded(None)
    ensures !canceled && (forall i :: 0 <= i < |s.syncEvents| ==> !s.syncEvents[i].SyncEnded?) ==>
      err == (if s.syncStart.Some? then s.syncStart else Some(Canceled))
    ensures !canceled ==> forall i :: FirstEndedAt(s.syncEvents, i) ==> err == s.syncEvents[i].err
  {
    if canceled then Some(Canceled)
    else
      match FirstSent(s.syncEvents, s.syncStart)
      case Sent(e) =>
        assert e.None? ==> exists i :: 0 <= i < |s.syncEvents| && s.syncEvents[i] == SyncEnded(None) by {
          if e.None? && forall i :: 0 <= i < |s.syncEvents| ==> !s.syncEvents[i].SyncEnded? {
            assert false;
          }
          if e.None? {
            var i :| 0 <= i < |s.syncEvents| && s.syncEvents[i].SyncEnded?;
            FirstEnded(s.syncEvents, i);
          }
        }
        e
      // nothing is ever sent: only the context can end the wait
      case NothingSent => Some(Canceled)
  }

  /** A sync with a SyncEnded callback has a first one. */
  lemma {:induction false} FirstEnded(events: seq<SyncEvent>, i: nat)
    requires i < |events| && events[i].SyncEnded?
    ensures exists k :: k <= i && FirstEndedAt(events, k)
    decreases i
  {
    if exists k :: 0 <= k < i && events[k].SyncEnded? {
      var k :| 0 <= k < i && events[k].SyncEnded?;
      FirstEnded(events, k);
    } else {
      assert FirstEndedAt(events, i);
    }
  }

  /** A prompt that validates nothing takes the first line, if there is one. */
  lemma AnyLineTakesFirst(lines: seq<string>)
    ensures Prompt(lines, AnyLine) == if |lines| == 0 then Exhausted else Accepted(lines[0], lines[1..])
  {
    if |lines| > 0 {
      assert AnyLine(lines[0]);
    }
  }

  /** What createWallet returns, calls and reads; `checkedBefore` says
      whether the middleware was asked about the wallet earlier. */
  function CreateFlow(s: Script, checkedBefore: bool, input: seq<string>, syncCanceled: bool): (r: Flow)
    ensures 1 <= |r.calls| <= 4 && r.calls[0] == Call.WalletExists
    ensures ExistsAnswer(s, checkedBefore).Failed? ==>
      r == Flow(Some(ExistsAnswer(s, checkedBefore).error), [Call.WalletExists], input)
    ensures ExistsAnswer(s, checkedBefore) == Value(true) ==>
      r == Flow(Some(WalletAlreadyExists), [Call.WalletExists], input)
    ensures ExistsAnswer(s, checkedBefore) == Value(false) && |input| < 2 ==>
      r == Flow(Some(ReadError), [Call.WalletExists], [])
    ensures ExistsAnswer(s, checkedBefore) == Value(false) && |input| >= 2 && input[0] != input[1] ==>
      r == Flow(Some(PassphrasesDoNotMatch), [Call.WalletExists], input[2..])
    ensures |r.calls| >= 2 <==> ExistsAnswer(s, checkedBefore) == Value(false) && |input| >= 2 && input[0] == input[1]
    ensures |r.calls| >= 2 ==> |input| >= 2
    ensures |r.calls| >= 2 ==>
      r == Flow(FinishCreation(s, input[0], input[2..], syncCanceled).err,
                [Call.WalletExists] + FinishCreation(s, input[0], input[2..], syncCanceled).calls,
                FinishCreation(s, input[0], input[2..], syncCanceled).rest)
    ensures Call.OpenWallet !in r.calls
  {
    match ExistsAnswer(s, checkedBefore)
    case Failed(e) => Flow(Some(e), [Call.WalletExists], input)
    case Value(found) =>
      if found then Flow(Some(WalletAlreadyExists), [Call.WalletExists], input)
      else
        match Prompt(input, AnyLine)
        case Exhausted => Flow(Some(ReadError), [Call.WalletExists], [])
        case Accepted(passphrase, afterPassphrase) =>
          match Prompt(afterPassphrase, AnyLine)
          case Exhausted => Flow(Some(ReadError), [Call.WalletExists], [])
          case Accepted(confirmation, afterConfirmation) =>
            assert passphrase == input[0] && confirmation == input[1] && afterConfirmation == input[2..];
            if passphrase != confirmation then
              Flow(Some(PassphrasesDoNotMatch), [Call.WalletExists], afterConfirmation)
            else
              var f := FinishCreation(s, passphrase, afterConfirmation, syncCanceled);
              Flow(f.err, [Call.WalletExists] + f.calls, f.rest)
  }

  /** What createWallet does once the passphrase is confirmed: generate the
      seed, wait for the backup acknowledgment, create the wallet, sync. */
  function FinishCreation(s: Script, passphrase: string, input: seq<string>, syncCanceled: bool): (r: Flow)
    ensures 1 <= |r.calls| <= 3 && r.calls[0] == Call.GenerateNewWalletSeed
    ensures s.seed.Failed? ==> r == Flow(Some(s.seed.error), [Call.GenerateNewWalletSeed], input)
    ensures |r.calls| >= 2 <==> s.seed.Value? && Prompt(input, BackupValidator).Accepted?
    ensures s.seed.Value? && Prompt(input, BackupValidator).Exhausted? ==>
      r == Flow(Some(ReadError), [Call.GenerateNewWalletSeed], [])
    ensures |r.calls| >= 2 ==> r.rest == Prompt(input, BackupValidator).rest
    ensures |r.calls| >= 2 ==> s.seed.Value? && r.calls[1] == Call.CreateWallet(passphrase, s.seed.value)
    ensures |r.calls| == 2 ==> r.err == s.create && r.err.Some?
    ensures |r.calls| == 3 <==> |r.calls| >= 2 && s.create.None?
    ensures |r.calls| == 3 ==> r.calls[2] == Call.SyncBlockChain(true) && r.err == SyncOutcome(s, syncCanceled)
    ensures r.err.None? ==> |r.calls| == 3
    ensures Call.OpenWallet !in r.calls && Call.WalletExists !in r.calls
  {
    match s.seed
    case Failed(e) => Flow(Some(e), [Call.GenerateNewWalletSeed], input)
    case Value(seed) =>
      match Prompt(input, BackupValidator)
      case Exhausted => Flow(Some(ReadError), [Call.GenerateNewWalletSeed], [])
      case Accepted(_, afterBackup) =>
        if s.create.Some? then
          Flow(s.create, [Call.GenerateNewWalletSeed, Call.CreateWallet(passphrase, seed)], afterBackup)
        else
          Flow(SyncOutcome(s, syncCanceled),
               [Call.GenerateNewWalletSeed, Call.CreateWallet(passphrase, seed), Call.SyncBlockChain(true)],
               afterBackup)
  }

  /** What attemptToCreateWallet returns, calls and reads. */
  function OfferFlow(s: Script, checkedBefore: bool, input: seq<string>, syncCanceled: bool): (r: Flow)
    ensures Prompt(input, CreateOfferValidator).Exhausted? ==> r == Flow(Some(ReadError), [], [])
    ensures var answer := Prompt(input, CreateOfferValidator);
      answer.Accepted? && DeclinesCreation(answer.line) ==> r == Flow(Some(WalletDoesNotExist), [], answer.rest)
    ensures var answer := Prompt(input, CreateOfferValidator);
      answer.Accepted? && !DeclinesCreation(answer.line) ==> r == CreateFlow(s, checkedBefore, answer.rest, syncCanceled)
    ensures var answer := Prompt(input, CreateOfferValidator);
      r.calls != [] <==> answer.Accepted? && !DeclinesCreation(answer.line)
    ensures Call.OpenWallet !in r.calls
  {
    match Prompt(input, CreateOfferValidator)
    case Exhausted => Flow(Some(ReadError), [], [])
    case Accepted(response, afterResponse) =>
      if DeclinesCreation(response) then Flow(Some(WalletDoesNotExist), [], afterResponse)
      else CreateFlow(s, checkedBefore, afterResponse, syncCanceled)
  }

  /** What openWallet returns, calls and reads. The creation it may offer
      asks the middleware again whether a wallet exists. */
  function OpenFlow(s: Script, checkedBefore: bool, input: seq<string>, openCanceled: bool, syncCanceled: bool): (r: Flow)
    ensures |r.calls| >= 1 && r.calls[0] == Call.WalletExists
    ensures Call.OpenWallet in r.calls <==> ExistsAnswer(s, checkedBefore) == Value(true)
    ensures openCanceled ==>
      r == Flow(Some(Canceled),
                if ExistsAnswer(s, checkedBefore) == Value(true) then [Call.WalletExists, Call.OpenWallet]
                else [Call.WalletExists],
                input)
    ensures !openCanceled && ExistsAnswer(s, checkedBefore) == Value(true) ==>
      r == Flow(s.open, [Call.WalletExists, Call.OpenWallet], input)
    ensures !openCanceled && ExistsAnswer(s, checkedBefore).Failed? ==>
      r == Flow(Some(ExistsAnswer(s, checkedBefore).error), [Call.WalletExists], input)
    ensures !openCanceled && ExistsAnswer(s, checkedBefore) == Value(false) ==>
      var offer := OfferFlow(s, true, input, syncCanceled);
      r == Flow(offer.err, [Call.WalletExists] + offer.calls, offer.rest)
  {
    var loaded := if ExistsAnswer(s, checkedBefore) == Value(true) then [Call.WalletExists, Call.OpenWallet]
                  else [Call.WalletExists];
    if openCanceled then Flow(Some(Canceled), loaded, input)
    else
      match ExistsAnswer(s, checkedBefore)
      case Failed(e) => Flow(Some(e), loaded, input)
      case Value(found) =>
        if found then Flow(s.open, loaded, input)
        else
          var offer := OfferFlow(s, true, input, syncCanceled);
          Flow(offer.err, [Call.WalletExists] + offer.calls, offer.rest)
  }

  /** When no wallet was found at first, the creation the user accepts asks
      the middleware again, and a wallet that appeared meanwhile ends it. */
  lemma RecheckFindsWallet(s: Script, input: seq<string>, syncCanceled: bool)
    requires s.existsReply == Value(false) && s.recheckReply == Value(true)
    requires Prompt(input, CreateOfferValidator).Accepted?
    requires !DeclinesCreation(Prompt(input, CreateOfferValidator).line)
    ensures OpenFlow(s, false, input, false, syncCanceled) ==
      Flow(Some(WalletAlreadyExists), [Call.WalletExists, Call.WalletExists], Prompt(input, CreateOfferValidator).rest)
  {
  }

  // ---------------------------------------------------------------------
  // The loader, over a middleware object
  // ---------------------------------------------------------------------

  lemma Concat(before: seq<Call>, first: seq<Call>, later: seq<Call>)
    ensures before + first + later == before + (first + later)
  {
  }

  method SyncBlockChain(mw: WalletMiddleware, canceled: bool) returns (err: Option<Error>)
    modifies mw
    ensures err == SyncOutcome(mw.script, canceled)
    ensures mw.trace == old(mw.trace) + [Call.SyncBlockChain(true)]
  {
    var events, startErr := mw.SyncBlockChain(true);
    var syncDone := FirstSent(events, startErr);
    if canceled {
      return Some(Canceled);
    }
    match syncDone
    case Sent(e) => err := e;
    case NothingSent => err := Some(Canceled);
  }

  method CreateWallet(mw: WalletMiddleware, input: seq<string>, syncCanceled: bool)
    returns (err: Option<Error>, rest: seq<string>)
    modifies mw
    ensures var f := CreateFlow(mw.script, Call.WalletExists in old(mw.trace), input, syncCanceled);
      err == f.err && rest == f.rest && mw.trace == old(mw.trace) + f.calls
  {
    ghost var before := mw.trace;
    ghost var checked := Call.WalletExists in before;
    var found := mw.WalletExists();
    if found.Failed? {
      assert CreateFlow(mw.script, checked, input, syncCanceled) == Flow(Some(found.error), [Call.WalletExists], input);
      return Some(found.error), input;
    }
    if found.value {
      assert CreateFlow(mw.script, checked, input, syncCanceled) == Flow(Some(WalletAlreadyExists), [Call.WalletExists], input);
      return Some(WalletAlreadyExists), input;
    }
    var passphrase := RequestInput(input, AnyLine);
    AnyLineTakesFirst(input);
    if passphrase.Exhausted? {
      assert CreateFlow(mw.script, checked, input, syncCanceled) == Flow(Some(ReadError), [Call.WalletExists], []);
      return Some(ReadError), [];
    }
    var confirmation := RequestInput(passphrase.rest, AnyLine);
    AnyLineTakesFirst(passphrase.rest);
    if confirmation.Exhausted? {
      assert CreateFlow(mw.script, checked, input, syncCanceled) == Flow(Some(ReadError), [Call.WalletExists], []);
      return Some(ReadError), [];
    }
    assert passphrase.line == input[0] && confirmation.line == input[1] && confirmation.rest == input[2..];
    if passphrase.line != confirmation.line {
      assert CreateFlow(mw.script, checked, input, syncCanceled) == Flow(Some(PassphrasesDoNotMatch), [Call.WalletExists], input[2..]);
      return Some(PassphrasesDoNotMatch), confirmation.rest;
    }
    ghost var f := FinishCreation(mw.script, input[0], input[2..], syncCanceled);
    assert CreateFlow(mw.script, checked, input, syncCanceled) == Flow(f.err, [Call.WalletExists] + f.calls, f.rest);
    assert mw.trace == before + [Call.WalletExists];
    err, rest := FinishWallet(mw, passphrase.line, confirmation.rest, syncCanceled);
    Concat(before, [Call.WalletExists], f.calls);
  }

  /** The second half of createWallet: seed, backup acknowledgment, creation, sync. */
  method FinishWallet(mw: WalletMiddleware, passphrase: string, input: seq<string>, syncCanceled: bool)
    returns (err: Option<Error>, rest: seq<string>)
    modifies mw
    ensures var f := FinishCreation(mw.script, passphrase, input, syncCanceled);
      err == f.err && rest == f.rest && mw.trace == old(mw.trace) + f.calls
  {
    ghost var before := mw.trace;
    ghost var f := FinishCreation(mw.script, passphrase, input, syncCanceled);
    var seed := mw.GenerateNewWalletSeed();
    if seed.Failed? {
      assert f == Flow(Some(seed.error), [Call.GenerateNewWalletSeed], input);
      return Some(seed.error), input;
    }
    var backup := RequestInput(input, BackupValidator);
    if backup.Exhausted? {
      assert f == Flow(Some(ReadError), [Call.GenerateNewWalletSeed], []);
      return Some(ReadError), [];
    }
    err := mw.CreateWallet(passphrase, seed.value);
    assert mw.trace == before + [Call.GenerateNewWalletSeed, Call.CreateWallet(passphrase, seed.value)] by {
      Concat(before, [Call.GenerateNewWalletSeed], [Call.CreateWallet(passphrase, seed.value)]);
    }
    if err.Some? {
      assert f == Flow(err, [Call.GenerateNewWalletSeed, Call.CreateWallet(passphrase, seed.value)], backup.rest);
      return err, backup.rest;
    }
    ghost var created := [Call.GenerateNewWalletSeed, Call.CreateWallet(passphrase, seed.value)];
    assert f == Flow(SyncOutcome(mw.script, syncCanceled), created + [Call.SyncBlockChain(true)], backup.rest);
    err := SyncBlockChain(mw, syncCanceled);
    rest := backup.rest;
    Concat(before, created, [Call.SyncBlockChain(true)]);
  }

  method AttemptToCreateWallet(mw: WalletMiddleware, input: seq<string>, syncCanceled: bool)
    returns (err: Option<Error>, rest: seq<string>)
    modifies mw
    ensures var f := OfferFlow(mw.script, Call.WalletExists in old(mw.trace), input, syncCanceled);
      err == f.err && rest == f.rest && mw.trace == old(mw.trace) + f.calls
  {
    var response := RequestInput(input, CreateOfferValidator);
    if response.Exhausted? {
      return Some(ReadError), [];
    }
    if DeclinesCreation(response.line) {
      return Some(WalletDoesNotExist), response.rest;
    }
    err, rest := CreateWallet(mw, response.rest, syncCanceled);
  }

  method OpenWallet(mw: WalletMiddleware, input: seq<string>, openCanceled: bool, syncCanceled: bool)
    returns (err: Option<Error>, rest: seq<string>)
    modifies mw
    ensures var f := OpenFlow(mw.script, Call.WalletExists in old(mw.trace), input, openCanceled, syncCanceled);
      err == f.err && rest == f.rest && mw.trace == old(mw.trace) + f.calls
  {
    ghost var before := mw.trace;
    ghost var f := OpenFlow(mw.script, Call.WalletExists in before, input, openCanceled, syncCanceled);
    // the loading task, which sets the shared err and noWalletFound
    var noWalletFound := false;
    err := None;
    var found := mw.WalletExists();
    if found.Failed? {
      err := Some(found.error);
    } else if !found.value {
      noWalletFound := true;
    } else {
      err := mw.OpenWallet();
    }
    // whichever of the loading task and the context finishes first
    if openCanceled {
      assert f.err == Some(Canceled) && f.rest == input;
      return Some(Canceled), input;
    }
    if noWalletFound {
      ghost var offer := OfferFlow(mw.script, true, input, syncCanceled);
      assert f == Flow(offer.err, [Call.WalletExists] + offer.calls, offer.rest);
      assert mw.trace == before + [Call.WalletExists];
      assert Call.WalletExists in mw.trace;
      err, rest := AttemptToCreateWallet(mw, input, syncCanceled);
      Concat(before, [Call.WalletExists], offer.calls);
      return;
    }
    rest := input;
  }
}
