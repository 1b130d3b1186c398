/**
  * The hot path's two scanners for risky action words, and the target classification that
  * consults one or the other. Both loops are proved against the same description of where in
  * a text an action occurs.
  */
module Scanner {
  import opened Text

  const DESTRUCTIVE_WORDS: set<string> := {
    "delete", "remove", "wipe", "destroy", "drop", "erase", "cancel", "terminate", "purge", "truncate",
    "shutdown", "uninstall", "revoke"}

  const SEND_WORDS: set<string> := {"send", "post", "publish", "submit", "reply"}

  const PURCHASE_WORDS: set<string> := {"buy", "purchase", "order", "pay", "transfer", "wire", "subscribe"}

  const HIGH_IMPACT_WORDS: set<string> := {
    "schedule", "reschedule", "invite", "deploy", "merge", "commit", "push"}

  /** The words the boolean scanner looks for. */
  const CONFIRMATION_WORDS: set<string> := {
    "delete", "remove", "wipe", "destroy", "drop", "erase", "cancel", "terminate", "purge", "truncate",
    "shutdown", "uninstall", "revoke", "send", "post", "publish", "submit", "reply", "buy", "purchase",
    "order", "pay", "transfer", "wire", "subscribe", "schedule", "reschedule", "invite", "deploy", "merge",
    "commit", "push"}

  const VERBS_WITH_OBJECT: set<string> := {"email", "message"}

  const BENIGN_MESSAGE_OBJECTS: set<string> := {
    "address", "board", "body", "content", "copy", "draft", "format", "header", "ideas", "marketing",
    "notification", "preferences", "settings", "subject", "summary", "template"}

  const BOOK_ACTION_OBJECTS: set<string> := {
    "appointment", "call", "flight", "hotel", "meeting", "reservation", "ride", "room", "table", "ticket",
    "trip"}

  const ARTICLES: set<string> := {"a", "an", "the", "my", "our"}

  datatype Category = Destructive | Send | Purchase | HighImpact

  type Mask = bv4

  function Bit(c: Category): Mask {
    match c
    case Destructive => 1
    case Send => 2
    case Purchase => 4
    case HighImpact => 8
  }

  const CONFIRM_ALL: Mask := 15

  /** The word lists keep the reserved words apart, and the boolean scanner's list is their union. */
  lemma WordFacts(t: string)
    ensures t in CONFIRMATION_WORDS
       <==> t in DESTRUCTIVE_WORDS || t in SEND_WORDS || t in PURCHASE_WORDS || t in HIGH_IMPACT_WORDS
    ensures t in ARTICLES || t == "apply" || t == "book" || t in VERBS_WITH_OBJECT ==> t !in CONFIRMATION_WORDS
    ensures t in ARTICLES ==> t != "apply" && t != "book" && t !in VERBS_WITH_OBJECT
  {
  }

  lemma ListsAreDisjoint(t: string)
    ensures t in DESTRUCTIVE_WORDS ==> t !in SEND_WORDS && t !in PURCHASE_WORDS && t !in HIGH_IMPACT_WORDS
    ensures t in SEND_WORDS ==> t !in PURCHASE_WORDS && t !in HIGH_IMPACT_WORDS
    ensures t in PURCHASE_WORDS ==> t !in HIGH_IMPACT_WORDS
  {
  }

  // ---------------------------------------------------------------- tokens

  const PUNCTUATION: string := ".,!?;:"

  predicate IsPunctuation(c: char) {
    c in PUNCTUATION
  }

  function Token(raw: string): string {
    StripOf(raw, IsPunctuation)
  }

  /** The tokens a scanner sees: stripped of punctuation, empty ones skipped. */
  function Words(raw: seq<string>): seq<string> {
    if raw == [] then []
    else
      var token := Token(raw[|raw| - 1]);
      if token == "" then Words(raw[..|raw| - 1]) else Words(raw[..|raw| - 1]) + [token]
  }

  predicate StartsWithBenign(token: string) {
    exists b :: b in BENIGN_MESSAGE_OBJECTS && b <= token
  }

  // ---------------------------------------------------------------- where an action occurs

  predicate AfterApply(prev: seq<string>) {
    prev != [] && prev[|prev| - 1] == "apply"
  }

  predicate AfterVerb(prev: seq<string>) {
    prev != [] && prev[|prev| - 1] in VERBS_WITH_OBJECT
  }

  /** `book`, then nothing but articles. */
  predicate BookOpen(prev: seq<string>) {
    prev != [] &&
    (prev[|prev| - 1] == "book" || (prev[|prev| - 1] in ARTICLES && BookOpen(prev[..|prev| - 1])))
  }

  /** Word `j` is `book`, and only articles follow it. */
  predicate OpenedAt(prev: seq<string>, j: nat) {
    j < |prev| && prev[j] == "book" && forall m :: j < m < |prev| ==> prev[m] in ARTICLES
  }

  lemma {:induction false} BookOpenIff(prev: seq<string>)
    ensures BookOpen(prev) <==> exists j: nat :: OpenedAt(prev, j)
  {
    if prev != [] {
      var n := |prev| - 1;
      BookOpenIff(prev[..n]);
      forall j: nat | j < n ensures OpenedAt(prev, j) <==> prev[n] in ARTICLES && OpenedAt(prev[..n], j) {
        OpenedAtStep(prev, j);
      }
      assert OpenedAt(prev, n) <==> prev[n] == "book";
    }
  }

  lemma OpenedAtStep(prev: seq<string>, j: nat)
    requires j < |prev| - 1
    ensures var n := |prev| - 1; OpenedAt(prev, j) <==> prev[n] in ARTICLES && OpenedAt(prev[..n], j)
  {
    var n := |prev| - 1;
    if OpenedAt(prev[..n], j) && prev[n] in ARTICLES {
      forall m | j < m < |prev| ensures prev[m] in ARTICLES {
        assert m < n ==> prev[..n][m] in ARTICLES;
      }
    }
  }

  /** The token `t`, coming after `prev`, is recognised as an action of category `c`. */
  predicate Acts(prev: seq<string>, t: string, c: Category) {
    match c
    case Destructive => t in DESTRUCTIVE_WORDS
    case Send => t in SEND_WORDS || (AfterVerb(prev) && !StartsWithBenign(t))
    case Purchase => t in PURCHASE_WORDS || (BookOpen(prev) && t in BOOK_ACTION_OBJECTS)
    case HighImpact => t in HIGH_IMPACT_WORDS || (AfterApply(prev) && t == "for")
  }

  /** An action of category `c` occurs somewhere in the text. */
  ghost predicate Occurs(words: seq<string>, c: Category) {
    exists i :: 0 <= i < |words| && Acts(words[..i], words[i], c)
  }

  function MaskOf(destructive: bool, send: bool, purchase: bool, highImpact: bool): Mask {
    (if destructive then 1 else 0) | (if send then 2 else 0) | (if purchase then 4 else 0)
    | (if highImpact then 8 else 0)
  }

  function TokenMask(prev: seq<string>, t: string): Mask {
    MaskOf(Acts(prev, t, Destructive), Acts(prev, t, Send), Acts(prev, t, Purchase), Acts(prev, t, HighImpact))
  }

  /** The union of the bits of all actions in the text. */
  function ActionMask(words: seq<string>): Mask {
    if words == [] then 0
    else ActionMask(words[..|words| - 1]) | TokenMask(words[..|words| - 1], words[|words| - 1])
  }

  lemma TokenMaskBits(prev: seq<string>, t: string, c: Category)
    ensures TokenMask(prev, t) & Bit(c) != 0 <==> Acts(prev, t, c)
  {
  }

  lemma OrBit(a: Mask, b: Mask, c: Category)
    ensures (a | b) & Bit(c) != 0 <==> a & Bit(c) != 0 || b & Bit(c) != 0
  {
  }

  /** Each bit says exactly whether its category occurs. */
  lemma {:induction false} ActionMaskBits(words: seq<string>, c: Category)
    ensures ActionMask(words) & Bit(c) != 0 <==> Occurs(words, c)
  {
    if words != [] {
      var n := |words| - 1;
      var init := words[..n];
      ActionMaskBits(init, c);
      TokenMaskBits(init, words[n], c);
      OrBit(ActionMask(init), TokenMask(init, words[n]), c);
      assert words == init + [words[n]];
      OccursSnoc(init, words[n], c);
    }
  }

  predicate SendsMessageAt(words: seq<string>, i: nat) {
    i + 1 < |words| && words[i] in {"email", "message"}
    && forall b :: b in BENIGN_MESSAGE_OBJECTS ==> !(b <= words[i + 1])
  }

  predicate BooksAt(words: seq<string>, i: nat, j: nat) {
    i < j < |words| && words[i] == "book" && words[j] in BOOK_ACTION_OBJECTS
    && forall m :: i < m < j ==> words[m] in ARTICLES
  }

  predicate AppliesForAt(words: seq<string>, i: nat) {
    i + 1 < |words| && words[i] == "apply" && words[i + 1] == "for"
  }

  /** A destructive action is one of the destructive words. */
  lemma DestructiveMeaning(words: seq<string>)
    ensures Occurs(words, Destructive) <==> exists i :: 0 <= i < |words| && words[i] in DESTRUCTIVE_WORDS
  {
    forall i | 0 <= i < |words| ensures Acts(words[..i], words[i], Destructive) <==> words[i] in DESTRUCTIVE_WORDS {}
  }

  /** Sending is a send word, or `email` or `message` right before a word that does not begin like a benign object. */
  lemma SendMeaning(words: seq<string>)
    ensures Occurs(words, Send) <==>
      (exists i :: 0 <= i < |words| && words[i] in SEND_WORDS) || exists i: nat :: SendsMessageAt(words, i)
  {
    forall i | 0 <= i < |words|
      ensures Acts(words[..i], words[i], Send)
         <==> words[i] in SEND_WORDS || (i > 0 && SendsMessageAt(words, i - 1))
    {
      assert i > 0 ==> words[..i][|words[..i]| - 1] == words[i - 1];
    }
    if i: nat :| SendsMessageAt(words, i) {
      assert Acts(words[..i + 1], words[i + 1], Send);
    }
  }

  /** Purchasing is one of the purchase words, or `book`, then nothing but articles, then something bookable. */
  lemma PurchaseMeaning(words: seq<string>)
    ensures Occurs(words, Purchase) <==>
      (exists i :: 0 <= i < |words| && words[i] in PURCHASE_WORDS) || exists i: nat, j: nat :: BooksAt(words, i, j)
  {
    forall j | 0 <= j < |words|
      ensures Acts(words[..j], words[j], Purchase)
         <==> words[j] in PURCHASE_WORDS || exists i: nat :: BooksAt(words, i, j)
    {
      BookOpenIff(words[..j]);
      forall i: nat ensures words[j] in BOOK_ACTION_OBJECTS && OpenedAt(words[..j], i) <==> BooksAt(words, i, j) {}
    }
    if i: nat, j: nat :| BooksAt(words, i, j) {
      assert Acts(words[..j], words[j], Purchase);
    }
  }

  /** A high-impact action is one of those words, or `apply` right before `for`. */
  lemma HighImpactMeaning(words: seq<string>)
    ensures Occurs(words, HighImpact) <==>
      (exists i :: 0 <= i < |words| && words[i] in HIGH_IMPACT_WORDS) || exists i: nat :: AppliesForAt(words, i)
  {
    forall i | 0 <= i < |words|
      ensures Acts(words[..i], words[i], HighImpact)
         <==> words[i] in HIGH_IMPACT_WORDS || (i > 0 && AppliesForAt(words, i - 1))
    {
      assert i > 0 ==> words[..i][|words[..i]| - 1] == words[i - 1];
    }
    if i: nat :| AppliesForAt(words, i) {
      assert Acts(words[..i + 1], words[i + 1], HighImpact);
    }
  }

  /** What the boolean scanner is for: some action of some category occurs. */
  ghost predicate HasAction(words: seq<string>) {
    exists c :: Occurs(words, c)
  }

  lemma MaskZeroIffNoBit(m: Mask)
    ensures m == 0 <==> m & 1 == 0 && m & 2 == 0 && m & 4 == 0 && m & 8 == 0
  {
  }

  /** The boolean scanner is true exactly when the mask scanner returns a non-zero mask. */
  lemma ScannersAgree(words: seq<string>)
    ensures HasAction(words) <==> ActionMask(words) != 0
  {
    ActionMaskBits(words, Destructive);
    ActionMaskBits(words, Send);
    ActionMaskBits(words, Purchase);
    ActionMaskBits(words, HighImpact);
    MaskZeroIffNoBit(ActionMask(words));
  }

  lemma OccursInLonger(words: seq<string>, more: seq<string>, c: Category)
    requires words <= more && Occurs(words, c)
    ensures Occurs(more, c)
  {
    var i :| 0 <= i < |words| && Acts(words[..i], words[i], c);
    assert more[..i] == words[..i] && more[i] == words[i];
  }

  lemma {:induction false} WordsPrefix(raw: seq<string>, k: nat)
    requires k <= |raw|
    ensures Words(raw[..k]) <= Words(raw)
  {
    if k < |raw| {
      WordsPrefix(raw[..|raw| - 1], k);
      assert raw[..|raw| - 1][..k] == raw[..k];
    } else {
      assert raw[..k] == raw;
    }
  }

  lemma OccursSnoc(words: seq<string>, t: string, c: Category)
    ensures Occurs(words + [t], c) <==> Occurs(words, c) || Acts(words, t, c)
  {
    var more := words + [t];
    assert more[..|words|] == words;
    if Occurs(words, c) { OccursInLonger(words, more, c); }
    if i :| 0 <= i < |more| && Acts(more[..i], more[i], c) {
      assert i < |words| ==> more[..i] == words[..i];
    }
    if Acts(words, t, c) { assert Acts(more[..|words|], more[|words|], c); }
  }

  // ---------------------------------------------------------------- the two scanners

  /** Which of the scanners' three pending flags are set. */
  datatype Pending = Pending(apply: bool, book: bool, message: bool)

  function PendingAfter(words: seq<string>): Pending {
    Pending(AfterApply(words), BookOpen(words), AfterVerb(words))
  }

  /** The body of the mask scanner's loop. */
  method ScanToken(mask0: Mask, p: Pending, token: string) returns (mask: Mask, q: Pending)
    ensures mask == mask0 | MaskOf(
      token in DESTRUCTIVE_WORDS,
      token in SEND_WORDS || (p.message && !StartsWithBenign(token)),
      token in PURCHASE_WORDS || (p.book && token in BOOK_ACTION_OBJECTS),
      token in HIGH_IMPACT_WORDS || (p.apply && token == "for"))
    ensures q == Pending(token == "apply", token == "book" || (token in ARTICLES && p.book),
                         token in VERBS_WITH_OBJECT)
  {
    WordFacts(token);
    ListsAreDisjoint(token);
    mask := mask0;
    var applyPending, bookPending, messagePending := p.apply, p.book, p.message;
    if applyPending {
      if token == "for" { mask := mask | 8; }
      applyPending := false;
    }
    if messagePending {
      if !StartsWithBenign(token) { mask := mask | 2; }
      messagePending := false;
    }
    if bookPending {
      if token in ARTICLES {
        return mask, Pending(applyPending, bookPending, messagePending);
      }
      if token in BOOK_ACTION_OBJECTS { mask := mask | 4; }
      bookPending := false;
    }
    if token in DESTRUCTIVE_WORDS {
      mask := mask | 1;
    } else if token in SEND_WORDS {
      mask := mask | 2;
    } else if token in PURCHASE_WORDS {
      mask := mask | 4;
    } else if token in HIGH_IMPACT_WORDS {
      mask := mask | 8;
    } else if token == "apply" {
      applyPending := true;
    } else if token in VERBS_WITH_OBJECT {
      messagePending := true;
    } else if token == "book" {
      bookPending := true;
    }
    q := Pending(applyPending, bookPending, messagePending);
  }

  lemma WordsStep(raw: seq<string>, k: nat)
    requires k < |raw|
    ensures var prev := Words(raw[..k]);
      var token := Token(raw[k]);
      var next := Words(raw[..k + 1]);
      if token == "" then next == prev
      else
        && next == prev + [token]
        && ActionMask(next) == ActionMask(prev) | TokenMask(prev, token)
        && PendingAfter(next)
           == Pending(token == "apply", token == "book" || (token in ARTICLES && BookOpen(prev)),
                      token in VERBS_WITH_OBJECT)
  {
    var prev := Words(raw[..k]);
    var token := Token(raw[k]);
    assert raw[..k + 1][..k] == raw[..k];
    assert (prev + [token])[..|prev|] == prev;
  }

  method FastConfirmationActionMask(raw: seq<string>) returns (mask: Mask)
    ensures mask == ActionMask(Words(raw))
  {
    mask := 0;
    var pending := Pending(false, false, false);
    for k := 0 to |raw|
      invariant mask == ActionMask(Words(raw[..k]))
      invariant pending == PendingAfter(Words(raw[..k]))
    {
      WordsStep(raw, k);
      var token := Token(raw[k]);
      if token == "" {
        continue;
      }
      mask, pending := ScanToken(mask, pending, token);
    }
    assert raw[..|raw|] == raw;
  }

  /** The boolean scanner: the same walk, stopped at the first action. */
  method FastHasConfirmationWord(raw: seq<string>) returns (found: bool)
    ensures found <==> HasAction(Words(raw))
  {
    var applyPending, bookPending, messagePending := false, false, false;
    for k := 0 to |raw|
      invariant !HasAction(Words(raw[..k]))
      invariant Pending(applyPending, bookPending, messagePending) == PendingAfter(Words(raw[..k]))
    {
      var token := Token(raw[k]);
      ghost var prev := Words(raw[..k]);
      WordsStep(raw, k);
      if token == "" {
        continue;
      }
      WordFacts(token);
      StepFound(prev, token);
      if applyPending {
        if token == "for" {
          assert Acts(prev, token, HighImpact);
          FoundInPrefix(raw, k + 1);
          return true;
        }
        applyPending := false;
      }
      if messagePending {
        if !StartsWithBenign(token) {
          assert Acts(prev, token, Send);
          FoundInPrefix(raw, k + 1);
          return true;
        }
        messagePending := false;
      }
      if bookPending {
        if token in ARTICLES {
          continue;
        }
        if token in BOOK_ACTION_OBJECTS {
          assert Acts(prev, token, Purchase);
          FoundInPrefix(raw, k + 1);
          return true;
        }
        bookPending := false;
      }
      if token in CONFIRMATION_WORDS {
        assert Acts(prev, token, Destructive) || Acts(prev, token, Send)
            || Acts(prev, token, Purchase) || Acts(prev, token, HighImpact);
        FoundInPrefix(raw, k + 1);
        return true;
      }
      if token == "apply" {
        applyPending := true;
        continue;
      }
      if token in VERBS_WITH_OBJECT {
        messagePending := true;
        continue;
      }
      if token == "book" {
        bookPending := true;
      }
    }
    assert raw[..|raw|] == raw;
    return false;
  }

  /** One more token adds nothing but its own action. */
  lemma StepFound(prev: seq<string>, token: string)
    ensures HasAction(prev + [token]) <==> HasAction(prev) || exists c :: Acts(prev, token, c)
  {
    forall c ensures Occurs(prev + [token], c) <==> Occurs(prev, c) || Acts(prev, token, c) {
      OccursSnoc(prev, token, c);
    }
    if HasAction(prev) {
      var c :| Occurs(prev, c);
      assert Occurs(prev + [token], c);
    } else if c :| Acts(prev, token, c) {
      assert Occurs(prev + [token], c);
    }
  }

  /** Found once, found for the whole text. */
  lemma FoundInPrefix(raw: seq<string>, k: nat)
    requires k <= |raw| && HasAction(Words(raw[..k]))
    ensures HasAction(Words(raw))
  {
    WordsPrefix(raw, k);
    var c :| Occurs(Words(raw[..k]), c);
    OccursInLonger(Words(raw[..k]), Words(raw), c);
  }

  // ---------------------------------------------------------------- classification

  datatype Target =
    Simple | BalancedTarget | Reasoning | Coding | Research | Vision | ImageGeneration | Confirmation

  /** The lower-cased text: its whitespace-separated tokens, and its answers to the marker tests. */
  datatype Prompt = Prompt(
    tokens: seq<string>,
    simplePrefix: bool,
    repositoryMarker: bool,
    veryLong: bool,
    imageNoun: bool,
    imageVerb: bool,
    visionMarker: bool,
    currentMarker: bool,
    recentYear: bool,
    researchMarker: bool,
    freshnessObject: bool,
    codingMarker: bool,
    reasoningMarker: bool,
    balancedPrefix: bool,
    ambiguous: bool,
    simpleMarker: bool,
    sensitiveWord: bool)

  /** Everything after the confirmation test, in the order the code asks. */
  function ClassifyBenign(p: Prompt): Target {
    if p.simplePrefix then Simple
    else if p.repositoryMarker then Coding
    else if p.veryLong then Reasoning
    else if p.imageNoun && p.imageVerb then ImageGeneration
    else if p.visionMarker then Vision
    else if (p.currentMarker || p.recentYear) && (p.researchMarker || p.freshnessObject) then Research
    else if p.codingMarker then Coding
    else if p.reasoningMarker then Reasoning
    else if p.balancedPrefix then BalancedTarget
    else if p.ambiguous then Reasoning
    else if p.simpleMarker then Simple
    else BalancedTarget
  }

  /** The rules of the benign targets, first match wins: whether one of the first `k` matches. */
  predicate MatchesWithin(p: Prompt, k: nat) {
    || (k > 0 && p.simplePrefix)
    || (k > 1 && p.repositoryMarker)
    || (k > 2 && p.veryLong)
    || (k > 3 && p.imageNoun && p.imageVerb)
    || (k > 4 && p.visionMarker)
    || (k > 5 && (p.currentMarker || p.recentYear) && (p.researchMarker || p.freshnessObject))
    || (k > 6 && p.codingMarker)
    || (k > 7 && p.reasoningMarker)
    || (k > 8 && p.balancedPrefix)
    || (k > 9 && p.ambiguous)
    || (k > 10 && p.simpleMarker)
  }

  const BENIGN_TARGETS: seq<Target> := [
    Simple, Coding, Reasoning, ImageGeneration, Vision, Research, Coding, Reasoning, BalancedTarget, Reasoning, Simple]

  /** A prompt's benign target is that of the first rule it matches, and balanced when it matches none. */
  lemma BenignTargetIsFirstMatch(p: Prompt, k: nat)
    ensures k < 11 && MatchesWithin(p, k + 1) && !MatchesWithin(p, k) ==> ClassifyBenign(p) == BENIGN_TARGETS[k]
    ensures !MatchesWithin(p, 11) ==> ClassifyBenign(p) == BalancedTarget
  {
  }

  /** Classification under a mask of the categories that need confirmation. */
  function ClassifyMasked(p: Prompt, mask: Mask): Target {
    if mask != 0 && ActionMask(Words(p.tokens)) & mask != 0 then Confirmation else ClassifyBenign(p)
  }

  method FastTargetRouteIndexWithSafety(p: Prompt, mask: Mask) returns (t: Target)
    ensures t == ClassifyMasked(p, mask)
    ensures t == Confirmation <==> exists c :: mask & Bit(c) != 0 && Occurs(Words(p.tokens), c)
  {
    MaskedConfirmationIff(p, mask);
    if mask != 0 {
      var actions := FastConfirmationActionMask(p.tokens);
      if actions & mask != 0 {
        return Confirmation;
      }
    }
    t := ClassifyBenign(p);
  }

  method FastTargetRouteIndex(p: Prompt) returns (t: Target)
    ensures t == ClassifyMasked(p, CONFIRM_ALL)
    ensures t == Confirmation <==> HasAction(Words(p.tokens))
  {
    ScannersAgree(Words(p.tokens));
    AllMask(ActionMask(Words(p.tokens)));
    var found := FastHasConfirmationWord(p.tokens);
    if found {
      return Confirmation;
    }
    t := ClassifyBenign(p);
  }

  lemma AllMask(m: Mask)
    ensures m & CONFIRM_ALL == m
  {
  }

  lemma CommonBit(a: Mask, b: Mask)
    ensures (a & b != 0) ==
      ((a & 1 != 0 && b & 1 != 0) || (a & 2 != 0 && b & 2 != 0) || (a & 4 != 0 && b & 4 != 0)
       || (a & 8 != 0 && b & 8 != 0))
  {
  }

  /** A prompt needs confirmation exactly when some action of a masked category occurs in it. */
  lemma MaskedConfirmationIff(p: Prompt, mask: Mask)
    ensures ClassifyMasked(p, mask) == Confirmation
       <==> exists c :: mask & Bit(c) != 0 && Occurs(Words(p.tokens), c)
  {
    var words := Words(p.tokens);
    forall c: Category ensures ActionMask(words) & Bit(c) != 0 <==> Occurs(words, c) { ActionMaskBits(words, c); }
    CommonBit(ActionMask(words), mask);
    if ClassifyMasked(p, mask) == Confirmation {
      var c :=
        if ActionMask(words) & Bit(Destructive) != 0 && mask & Bit(Destructive) != 0 then Destructive
        else if ActionMask(words) & Bit(Send) != 0 && mask & Bit(Send) != 0 then Send
        else if ActionMask(words) & Bit(Purchase) != 0 && mask & Bit(Purchase) != 0 then Purchase
        else HighImpact;
      assert mask & Bit(c) != 0 && Occurs(words, c);
    }
  }

  /** Shrinking the mask can only lift a confirmation; it never turns one other target into another. */
  lemma ShrinkingMaskOnlyLifts(p: Prompt, small: Mask, large: Mask)
    requires small & large == small
    ensures ClassifyMasked(p, small) == ClassifyMasked(p, large)
         || (ClassifyMasked(p, large) == Confirmation && ClassifyMasked(p, small) == ClassifyBenign(p))
  {
  }

  // ---------------------------------------------------------------- the configured mask

  datatype Safety = Safety(
    requireHumanConfirmation: bool,
    allowDestructive: bool,
    allowSend: bool,
    allowPurchase: bool,
    allowHighImpact: bool,
    allowAmbiguousHighImpact: bool)

  predicate Allows(s: Safety, c: Category) {
    match c
    case Destructive => s.allowDestructive
    case Send => s.allowSend
    case Purchase => s.allowPurchase
    case HighImpact => s.allowHighImpact
  }

  function ConfirmationMask(s: Safety): Mask {
    if !s.requireHumanConfirmation then 0
    else
      var m0 := CONFIRM_ALL;
      var m1 := if s.allowDestructive then m0 & !1 else m0;
      var m2 := if s.allowSend then m1 & !2 else m1;
      var m3 := if s.allowPurchase then m2 & !4 else m2;
      if s.allowHighImpact then m3 & !8 else m3
  }

  lemma ConfirmationMaskBits(s: Safety, c: Category)
    ensures ConfirmationMask(s) & Bit(c) != 0 <==> s.requireHumanConfirmation && !Allows(s, c)
  {
  }

  /** What the router's classifier does: the plain variant for a full mask, the masked one otherwise. */
  method FastTarget(p: Prompt, s: Safety) returns (t: Target)
    ensures t == ClassifyMasked(p, ConfirmationMask(s))
    ensures t == Confirmation
       <==> s.requireHumanConfirmation && exists c :: !Allows(s, c) && Occurs(Words(p.tokens), c)
  {
    forall c ensures ConfirmationMask(s) & Bit(c) != 0 <==> s.requireHumanConfirmation && !Allows(s, c) {
      ConfirmationMaskBits(s, c);
    }
    MaskedConfirmationIff(p, ConfirmationMask(s));
    if ConfirmationMask(s) == CONFIRM_ALL {
      t := FastTargetRouteIndex(p);
    } else {
      t := FastTargetRouteIndexWithSafety(p, ConfirmationMask(s));
    }
  }
}
