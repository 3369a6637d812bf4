/**
 * `IsTaskRelatedMessage`: whether a chat message asks for a task operation.
 * The message is lower-cased and trimmed; any conversational phrase occurring
 * in it decides "no"; otherwise a match of one of eight fixed patterns, or any
 * task keyword occurring in it, decides "yes". The regular expressions are
 * written out as predicates over the lower-cased text.
 */
module IntentClassifier {
  import opened Text

  const ConversationalPhrases: seq<string> := [
    "hello", "hi", "hey", "good morning", "good afternoon", "good evening",
    "how are you", "how's it going", "what's up", "nice to meet you",
    "thank you", "thanks", "bye", "goodbye", "see you", "talk to you later",
    "what time", "what day", "what's the weather", "tell me a joke",
    "who are you", "what can you do", "help", "?"]

  const TaskKeywords: seq<string> := ["task", "tasks", "todo", "reminder", "schedule", "deadline"]

  /** `\w`, on ASCII. */
  predicate IsWordChar(c: char) {
    IsAsciiLetter(c) || IsAsciiDigit(c) || c == '_'
  }

  /** `\b` at position `i`: a word character on exactly one side. */
  predicate IsBoundary(s: string, i: int)
    requires 0 <= i <= |s|
  {
    (i > 0 && IsWordChar(s[i - 1])) != (i < |s| && IsWordChar(s[i]))
  }

  /** `(n1|n2|…)\b` at `q`. */
  predicate NounAt(s: string, q: int, nouns: seq<string>) {
    exists n | n in nouns :: LitAt(s, q, n) && IsBoundary(s, q + |n|)
  }

  /** `\s+(n1|n2|…)\b` at `p`. Whitespace is never the first character of a noun, so the
      whitespace run is the longest one. */
  predicate SpacedNounAt(s: string, p: int, nouns: seq<string>) {
    0 <= p <= |s| && var q := SpaceEnd(s, p); q > p && NounAt(s, q, nouns)
  }

  /** `\s+(opt\s+)?(n1|n2|…)\b` at `p`. */
  predicate OptSpacedNounAt(s: string, p: int, opt: string, nouns: seq<string>) {
    0 <= p <= |s| &&
    var q := SpaceEnd(s, p);
    q > p && (NounAt(s, q, nouns) || (LitAt(s, q, opt) && SpacedNounAt(s, q + |opt|, nouns)))
  }

  /** `\b(v1|v2|…)\s+(opt\s+)?(n1|n2|…)\b` somewhere in `s`. */
  predicate VerbPhrase(s: string, verbs: seq<string>, opt: string, nouns: seq<string>) {
    exists i, v | 0 <= i <= |s| && v in verbs :: VerbPhraseAt(s, i, v, opt, nouns)
  }

  /** The verb phrase starting with `v` at `i`. */
  predicate VerbPhraseAt(s: string, i: int, v: string, opt: string, nouns: seq<string>) {
    0 <= i <= |s| && IsBoundary(s, i) && LitAt(s, i, v) && OptSpacedNounAt(s, i + |v|, opt, nouns)
  }

  /** `\b(w1|w2|…)\b` somewhere in `s`. */
  predicate WholeWord(s: string, words: seq<string>) {
    exists i, w | 0 <= i <= |s| && w in words :: WordAt(s, i, w)
  }

  /** `\bw\b` at `i`. */
  predicate WordAt(s: string, i: int, w: string) {
    0 <= i <= |s| && IsBoundary(s, i) && LitAt(s, i, w) && IsBoundary(s, i + |w|)
  }

  predicate AddPattern(s: string) { VerbPhrase(s, ["add", "create", "new"], "a", ["task"]) }
  predicate ShowPattern(s: string) { VerbPhrase(s, ["show", "list", "display", "get"], "my", ["tasks", "task"]) }
  predicate UpdatePattern(s: string) { VerbPhrase(s, ["update", "edit", "modify"], "a", ["task"]) }
  predicate DeletePattern(s: string) { VerbPhrase(s, ["delete", "remove"], "a", ["task"]) }
  predicate CompletePattern(s: string) { VerbPhrase(s, ["complete", "finish", "mark"], "a", ["task"]) }

  /** `\b(due|priority|status)\s+(high|low|medium|urgent|important)\b` */
  predicate LevelPattern(s: string) {
    exists i, v | 0 <= i <= |s| && v in ["due", "priority", "status"] ::
      IsBoundary(s, i) && LitAt(s, i, v) && SpacedNounAt(s, i + |v|, ["high", "low", "medium", "urgent", "important"])
  }

  predicate TodoPattern(s: string) { WholeWord(s, ["todo", "to-do", "to do"]) }
  predicate PlanningPattern(s: string) { WholeWord(s, ["reminder", "schedule", "deadline"]) }

  /** Some task-operation pattern matches. */
  predicate HasTaskPattern(s: string) {
    AddPattern(s) || ShowPattern(s) || UpdatePattern(s) || DeletePattern(s) || CompletePattern(s)
    || LevelPattern(s) || TodoPattern(s) || PlanningPattern(s)
  }

  /** The text the classifier inspects. */
  function Normalize(message: string): string {
    Trim(ToLower(message))
  }

  /** `IsTaskRelatedMessage`. */
  predicate IsTaskRelatedMessage(message: string)
    ensures IsTaskRelatedMessage(message) ==> !ContainsAny(Normalize(message), ConversationalPhrases)
    ensures !ContainsAny(Normalize(message), ConversationalPhrases) && ContainsAny(Normalize(message), TaskKeywords)
      ==> IsTaskRelatedMessage(message)
  {
    var s := Normalize(message);
    if ContainsAny(s, ConversationalPhrases) then false
    else HasTaskPattern(s) || ContainsAny(s, TaskKeywords)
  }

  /** A conversational phrase anywhere in the normalised message decides "not task-related", even
      beside task keywords; without one, the answer is exactly "some pattern matches or some
      keyword occurs". */
  lemma ClassifierDecision(message: string)
    ensures ContainsAny(Normalize(message), ConversationalPhrases) ==> !IsTaskRelatedMessage(message)
    ensures !ContainsAny(Normalize(message), ConversationalPhrases) ==>
      (IsTaskRelatedMessage(message) <==>
        HasTaskPattern(Normalize(message)) || ContainsAny(Normalize(message), TaskKeywords))
  {
  }

  /** A conversational phrase decides "not task-related" whatever follows it: appending task
      words, a whole task request or anything else to such a message never makes it
      task-related. */
  lemma ConversationalPhraseWins(message: string, more: string)
    requires ContainsAny(Normalize(message), ConversationalPhrases)
    ensures !IsTaskRelatedMessage(message)
    ensures !IsTaskRelatedMessage(message + more)
  {
    PhraseSurvivesAppend(message, more);
    PhraseDecides(message);
    PhraseDecides(message + more);
  }

  lemma PhraseSurvivesAppend(message: string, more: string)
    requires ContainsAny(Normalize(message), ConversationalPhrases)
    ensures ContainsAny(Normalize(message + more), ConversationalPhrases)
  {
    ToLowerAppend(message, more);
    PhrasesNonEmpty();
    ContainsAnyAppend(ToLower(message), ToLower(more), ConversationalPhrases);
  }

  lemma PhrasesNonEmpty()
    ensures forall k | 0 <= k < |ConversationalPhrases| :: ConversationalPhrases[k] != []
  {
  }

  lemma PhraseDecides(message: string)
    requires ContainsAny(Normalize(message), ConversationalPhrases)
    ensures !IsTaskRelatedMessage(message)
  {
  }

  /** The same for any list of non-empty phrases, on the lower-cased text. */
  lemma ContainsAnyAppend(s: string, t: string, ps: seq<string>)
    requires forall k | 0 <= k < |ps| :: ps[k] != []
    requires ContainsAny(Trim(s), ps)
    ensures ContainsAny(Trim(s + t), ps)
  {
    var k :| 0 <= k < |ps| && Contains(Trim(s), ps[k]);
    TrimAppendKeeps(s, t, ps[k]);
  }

  /** Without a conversational phrase, any of the keywords "task", "todo", "reminder", "schedule"
      or "deadline" makes a message task-related. */
  lemma KeywordSuffices(message: string, k: nat)
    requires k < |TaskKeywords|
    requires Contains(Normalize(message), TaskKeywords[k])
    requires !ContainsAny(Normalize(message), ConversationalPhrases)
    ensures IsTaskRelatedMessage(message)
  {
  }

  lemma NounAtContains(s: string, q: int, nouns: seq<string>)
    requires NounAt(s, q, nouns)
    ensures exists n | n in nouns :: Contains(s, n)
  {
    var n :| n in nouns && LitAt(s, q, n) && IsBoundary(s, q + |n|);
    LitAtContains(s, q, n);
  }

  lemma OptSpacedNounContains(s: string, p: int, opt: string, nouns: seq<string>)
    requires OptSpacedNounAt(s, p, opt, nouns)
    ensures exists n | n in nouns :: Contains(s, n)
  {
    var q := SpaceEnd(s, p);
    if NounAt(s, q, nouns) {
      NounAtContains(s, q, nouns);
    } else {
      assert SpacedNounAt(s, q + |opt|, nouns);
      NounAtContains(s, SpaceEnd(s, q + |opt|), nouns);
    }
  }

  /** A verb phrase ending in one of the nouns puts that noun in the text. */
  lemma VerbPhraseHasNoun(s: string, verbs: seq<string>, opt: string, nouns: seq<string>)
    requires VerbPhrase(s, verbs, opt, nouns)
    ensures exists n | n in nouns :: Contains(s, n)
  {
    var i, v :| 0 <= i <= |s| && v in verbs && VerbPhraseAt(s, i, v, opt, nouns);
    OptSpacedNounContains(s, i + |v|, opt, nouns);
  }

  /** "task" and "tasks" are keywords. */
  lemma TaskNounIsKeyword(s: string)
    requires exists n | n in ["tasks", "task"] :: Contains(s, n)
    ensures ContainsAny(s, TaskKeywords)
  {
    var n :| n in ["tasks", "task"] && Contains(s, n);
    assert n == TaskKeywords[0] || n == TaskKeywords[1];
  }

  /** The planning words are keywords. */
  lemma PlanningWordIsKeyword(s: string)
    requires PlanningPattern(s)
    ensures ContainsAny(s, TaskKeywords)
  {
    var i, w :| 0 <= i <= |s| && w in ["reminder", "schedule", "deadline"] && WordAt(s, i, w);
    LitAtContains(s, i, w);
    assert w == TaskKeywords[3] || w == TaskKeywords[4] || w == TaskKeywords[5];
  }

  /** The five verb patterns end in "task" or "tasks", and the planning pattern is made of keywords,
      so each of them implies a keyword occurrence. */
  lemma PatternsImplyKeywords(s: string)
    requires AddPattern(s) || ShowPattern(s) || UpdatePattern(s) || DeletePattern(s)
          || CompletePattern(s) || PlanningPattern(s)
    ensures ContainsAny(s, TaskKeywords)
  {
    if PlanningPattern(s) {
      PlanningWordIsKeyword(s);
    } else {
      if AddPattern(s) {
        VerbPhraseHasNoun(s, ["add", "create", "new"], "a", ["task"]);
      } else if ShowPattern(s) {
        VerbPhraseHasNoun(s, ["show", "list", "display", "get"], "my", ["tasks", "task"]);
      } else if UpdatePattern(s) {
        VerbPhraseHasNoun(s, ["update", "edit", "modify"], "a", ["task"]);
      } else if DeletePattern(s) {
        VerbPhraseHasNoun(s, ["delete", "remove"], "a", ["task"]);
      } else {
        VerbPhraseHasNoun(s, ["complete", "finish", "mark"], "a", ["task"]);
      }
      TaskNounIsKeyword(s);
    }
  }

  /** Of the three to-do spellings, "todo" is itself a keyword. */
  lemma TodoSpellings(s: string)
    ensures TodoPattern(s) ==> WholeWord(s, ["to-do", "to do"]) || ContainsAny(s, TaskKeywords)
    ensures WholeWord(s, ["to-do", "to do"]) ==> TodoPattern(s)
  {
    if TodoPattern(s) && !WholeWord(s, ["to-do", "to do"]) {
      TodoWordIsKeyword(s);
    }
    if WholeWord(s, ["to-do", "to do"]) {
      SpelledTodoIsTodo(s);
    }
  }

  lemma TodoWordIsKeyword(s: string)
    requires TodoPattern(s) && !WholeWord(s, ["to-do", "to do"])
    ensures ContainsAny(s, TaskKeywords)
  {
    var i, w :| 0 <= i <= |s| && w in ["todo", "to-do", "to do"] && WordAt(s, i, w);
    SpelledOrTodo(s, i, w);
    LitAtContains(s, i, TaskKeywords[2]);
  }

  /** A "todo" pattern match at `i` is either the plain word or one of the spelled-out forms. */
  lemma SpelledOrTodo(s: string, i: int, w: string)
    requires w in ["todo", "to-do", "to do"] && WordAt(s, i, w)
    ensures w == "todo" || WholeWord(s, ["to-do", "to do"])
  {
    if w != "todo" {
      assert w in ["to-do", "to do"];
    }
  }

  lemma SpelledTodoIsTodo(s: string)
    requires WholeWord(s, ["to-do", "to do"])
    ensures TodoPattern(s)
  {
    var i, w :| 0 <= i <= |s| && w in ["to-do", "to do"] && WordAt(s, i, w);
    assert w in ["todo", "to-do", "to do"];
  }

  /** So only the level pattern and the spelled-out "to-do" / "to do" forms recognise anything the
      keyword test does not. */
  lemma ClassifierReduced(message: string)
    ensures var s := Normalize(message);
      IsTaskRelatedMessage(message) <==>
        !ContainsAny(s, ConversationalPhrases) &&
        (LevelPattern(s) || WholeWord(s, ["to-do", "to do"]) || ContainsAny(s, TaskKeywords))
  {
    var s := Normalize(message);
    if AddPattern(s) || ShowPattern(s) || UpdatePattern(s) || DeletePattern(s) || CompletePattern(s) || PlanningPattern(s) {
      PatternsImplyKeywords(s);
    }
    TodoSpellings(s);
  }

  lemma DeleteThisTaskIsNormal()
    ensures Normalize("delete this task") == "delete this task"
  {
    LowerTrimmedFixed("delete this task");
  }

  /** "delete this task" holds "hi" (inside "this"), so the phrase test rejects it. */
  lemma DeleteThisTaskIsConversational()
    ensures !IsTaskRelatedMessage("delete this task")
  {
    DeleteThisTaskIsNormal();
    DeleteThisTaskHoldsHi();
    ClassifierDecision("delete this task");
  }

  lemma DeleteThisTaskHoldsHi()
    ensures Contains("delete this task", ConversationalPhrases[1])
  {
    assert LitAt("delete this task", 8, ConversationalPhrases[1]);
  }

  /** Every conversational phrase holds one of "h", "g", "n", "e" or "?". */
  lemma PhrasesHoldMarker(k: nat)
    requires k < |ConversationalPhrases|
    ensures var p := ConversationalPhrases[k];
      'h' in p || 'g' in p || 'n' in p || 'e' in p || '?' in p
  {
  }

  /** A text without any of those characters holds no conversational phrase. */
  lemma NoMarkerNoPhrase(s: string)
    requires 'h' !in s && 'g' !in s && 'n' !in s && 'e' !in s && '?' !in s
    ensures !ContainsAny(s, ConversationalPhrases)
  {
    forall k | 0 <= k < |ConversationalPhrases|
      ensures !Contains(s, ConversationalPhrases[k])
    {
      var p := ConversationalPhrases[k];
      PhrasesHoldMarker(k);
      if 'h' in p {
        AbsentCharExcludes(s, p, 'h');
      } else if 'g' in p {
        AbsentCharExcludes(s, p, 'g');
      } else if 'n' in p {
        AbsentCharExcludes(s, p, 'n');
      } else if 'e' in p {
        AbsentCharExcludes(s, p, 'e');
      } else {
        AbsentCharExcludes(s, p, '?');
      }
    }
  }

  lemma AddTaskToBuyMilkIsNormal()
    ensures Normalize("add a task to buy milk") == "add a task to buy milk"
  {
    LowerTrimmedFixed("add a task to buy milk");
  }

  /** "add a task to buy milk" holds no conversational phrase and holds "task". */
  lemma AddTaskToBuyMilkIsTaskRelated(message: string)
    requires message == "add a task to buy milk"
    ensures IsTaskRelatedMessage(message)
  {
    AddTaskToBuyMilkIsNormal();
    AddTaskToBuyMilkHoldsTask();
    KeywordSuffices(message, 0);
  }

  lemma AddTaskToBuyMilkHoldsTask()
    ensures !ContainsAny("add a task to buy milk", ConversationalPhrases)
    ensures Contains("add a task to buy milk", TaskKeywords[0])
  {
    MarkerFree("add a task to buy milk");
    NoMarkerNoPhrase("add a task to buy milk");
    AddTaskToBuyMilkHoldsWord();
  }

  /** The marker characters, checked one position at a time. */
  lemma MarkerFree(s: string)
    requires forall i | 0 <= i < |s| :: s[i] != 'h' && s[i] != 'g' && s[i] != 'n' && s[i] != 'e' && s[i] != '?'
    ensures 'h' !in s && 'g' !in s && 'n' !in s && 'e' !in s && '?' !in s
  {
  }

  lemma AddTaskToBuyMilkHoldsWord()
    ensures Contains("add a task to buy milk", TaskKeywords[0])
  {
    var s := "add a task to buy milk";
    assert s[6..10] == "task";
    LitAtContains(s, 6, TaskKeywords[0]);
  }
}
