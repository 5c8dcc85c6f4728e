/**
 * The console application DocumentIntelligenceApp: the exit words, the
 * session loop over typed lines, the folder the retriever is built for and
 * the typing-effect delay of streamed tokens. Chats themselves, the models
 * and the console are outside the model; the random draws are inputs.
 */
module App {
  import opened Wrappers
  import opened Text
  import opened FileFormats

  // ---- isExitCommand ----

  /** `Character.toUpperCase` on the characters that matter for the exit words: ASCII letters and the dotless i. */
  function UpperChar(c: char): char
  {
    if 'a' <= c <= 'z' then (c as int - 32) as char
    else if c == '\U{0131}' then 'I'
    else c
  }

  /** `Character.toLowerCase` on the same range: ASCII letters and the capital I with a dot. */
  function LowerChar(c: char): char
  {
    if 'A' <= c <= 'Z' then (c as int + 32) as char
    else if c == '\U{0130}' then 'i'
    else c
  }

  /** The per-character rule of `equalsIgnoreCase`: equal, equal upper cases, or equal lower cases of the upper cases. */
  predicate CharEqualsIgnoreCase(c1: char, c2: char)
  {
    c1 == c2 || UpperChar(c1) == UpperChar(c2) || LowerChar(UpperChar(c1)) == LowerChar(UpperChar(c2))
  }

  /** `a.equalsIgnoreCase(b)` */
  predicate EqualsIgnoreCase(a: string, b: string)
  {
    |a| == |b| && forall i :: 0 <= i < |a| ==> CharEqualsIgnoreCase(a[i], b[i])
  }

  /** The case fold the rule amounts to: lower case of upper case. */
  function FoldChar(c: char): char
  {
    LowerChar(UpperChar(c))
  }

  function FoldCase(s: string): (r: string)
    ensures |r| == |s| && forall i :: 0 <= i < |s| ==> r[i] == FoldChar(s[i])
  {
    if s == [] then [] else [FoldChar(s[0])] + FoldCase(s[1..])
  }

  /** Two strings are equal ignoring case exactly when their folds are equal. */
  lemma EqualsIgnoreCaseIsFoldEquality(a: string, b: string)
    ensures EqualsIgnoreCase(a, b) <==> FoldCase(a) == FoldCase(b)
  {
    if FoldCase(a) == FoldCase(b) {
      forall i | 0 <= i < |a|
        ensures CharEqualsIgnoreCase(a[i], b[i])
      {
        assert FoldCase(a)[i] == FoldCase(b)[i];
      }
    }
  }

  predicate IsExitCommand(input: string)
  {
    EqualsIgnoreCase(input, "exit") || EqualsIgnoreCase(input, "quit") || EqualsIgnoreCase(input, "bye")
  }

  /** An input is an exit command exactly when its case fold is one of the three words. */
  lemma ExitCommandByFold(input: string)
    ensures IsExitCommand(input) <==> FoldCase(input) == "exit" || FoldCase(input) == "quit" || FoldCase(input) == "bye"
  {
    EqualsIgnoreCaseIsFoldEquality(input, "exit");
    EqualsIgnoreCaseIsFoldEquality(input, "quit");
    EqualsIgnoreCaseIsFoldEquality(input, "bye");
    ExitWordsAreFolded();
  }

  lemma ExitWordsAreFolded()
    ensures FoldCase("exit") == "exit" && FoldCase("quit") == "quit" && FoldCase("bye") == "bye"
  {
    FoldedWord("exit");
    FoldedWord("quit");
    FoldedWord("bye");
  }

  lemma FoldedWord(w: string)
    requires w == "exit" || w == "quit" || w == "bye"
    ensures FoldCase(w) == w
  {
    assert forall i :: 0 <= i < |w| ==> 'a' <= w[i] <= 'z';
    FoldCaseOfLowerLetters(w);
  }

  /** Folding keeps a word made of lower-case ASCII letters. */
  lemma FoldCaseOfLowerLetters(s: string)
    requires forall i :: 0 <= i < |s| ==> 'a' <= s[i] <= 'z'
    ensures FoldCase(s) == s
  {
    forall i | 0 <= i < |s|
      ensures FoldCase(s)[i] == s[i]
    {
      FoldLowerLetter(s[i]);
    }
  }

  lemma FoldLowerLetter(c: char)
    requires 'a' <= c <= 'z'
    ensures FoldChar(c) == c
  {
    var u := (c as int - 32) as char;
    assert UpperChar(c) == u && 'A' <= u <= 'Z';
  }

  /** Any mix of cases is accepted, and so is a Turkish dotless i. */
  lemma ExitCommandExamples()
    ensures IsExitCommand("EXIT") && IsExitCommand("Bye") && IsExitCommand("ex\U{0131}t")
  {
    assert CharEqualsIgnoreCase('\U{0131}', 'i');
  }

  /** A longer word, or another word, is not an exit command. */
  lemma NotExitCommandExamples()
    ensures !IsExitCommand("exits") && !IsExitCommand("stop")
  {
    assert |"exits"| == 5;
    assert !CharEqualsIgnoreCase("stop"[0], "exit"[0]) && !CharEqualsIgnoreCase("stop"[0], "quit"[0]);
  }

  // ---- the folder ----

  /** `DATA_RESOURCES_PATH` */
  const DataResourcesPath := "./src/main/resources/"

  /** `Character.isWhitespace`: the Unicode space separators other than no-break spaces, and the controls 9-13 and 28-31. */
  predicate IsJavaWhitespace(c: char)
  {
    ('\t' <= c <= '\r') || ('\U{001C}' <= c <= ' ') || c == '\U{1680}' ||
    ('\U{2000}' <= c <= '\U{2006}') || ('\U{2008}' <= c <= '\U{200A}') ||
    c == '\U{2028}' || c == '\U{2029}' || c == '\U{205F}' || c == '\U{3000}'
  }

  /** `s.isBlank()` */
  predicate IsBlank(s: string)
  {
    forall i :: 0 <= i < |s| ==> IsJavaWhitespace(s[i])
  }

  /** The folder handed to the retriever, as the two branches are written: the typed folder in both. */
  function RetrieverDirectoryAsWritten(dataDir: string): (dir: string)
    ensures dir == dataDir
  {
    if IsBlank(dataDir) || IsBlank(dataDir) || dataDir == "default" then dataDir else dataDir
  }

  /** As written, a blank answer or "default" does not choose the resources folder. */
  lemma BlankFolderIsNotDefault()
    ensures RetrieverDirectoryAsWritten("") == "" != DataResourcesPath
    ensures RetrieverDirectoryAsWritten("default") == "default" != DataResourcesPath
  {
  }

  /** The folder the branches evidently mean: the resources folder for a blank answer or "default", the typed one otherwise. */
  function RetrieverDirectory(dataDir: string): (dir: string)
    ensures IsBlank(dataDir) || dataDir == "default" ==> dir == DataResourcesPath
    ensures !IsBlank(dataDir) && dataDir != "default" ==> dir == dataDir
  {
    if IsBlank(dataDir) || dataDir == "default" then DataResourcesPath else dataDir
  }

  /** The resources folder of the application is the ranker's default folder. */
  lemma SameDefaultFolder()
    ensures DataResourcesPath == DefaultResourcesDir
  {
  }

  // ---- the session loop ----

  /** The two lines read in one turn of the loop: the folder, then the question. */
  datatype Round = Round(dataDirLine: string, queryLine: string)

  /** A chat started by the loop: the retriever's folder and the question. */
  datatype Chat = Chat(directory: string, question: string)

  /** What one turn of the loop does with its two lines. */
  datatype Turn = Stop | Skip | Ask(chat: Chat)

  /** Which folder rule a session follows: the branches as written, or as evidently meant. */
  datatype FolderRule = AsWritten | Corrected

  function FolderFor(rule: FolderRule, dataDir: string): string
  {
    match rule
    case AsWritten => RetrieverDirectoryAsWritten(dataDir)
    case Corrected => RetrieverDirectory(dataDir)
  }

  /** An exit word ends the session, an empty question starts the next turn, anything else is asked. */
  function TurnOf(r: Round, rule: FolderRule): Turn
  {
    var query := Trim(r.queryLine);
    if IsExitCommand(query) then Stop
    else if query == "" then Skip
    else Ask(Chat(FolderFor(rule, Trim(r.dataDirLine)), query))
  }

  /** The chats a turn starts, given those the rest of the session starts. */
  function Continue(t: Turn, rest: seq<Chat>): seq<Chat>
  {
    match t
    case Stop => []
    case Skip => rest
    case Ask(c) => [c] + rest
  }

  /** The chats a session starts, turn by turn, under a folder rule. */
  function SessionChats(rounds: seq<Round>, rule: FolderRule): seq<Chat>
  {
    if rounds == [] then [] else Continue(TurnOf(rounds[0], rule), SessionChats(rounds[1..], rule))
  }

  /** The `while (true)` loop of `main`, over the lines the user types. */
  method RunSession(rounds: seq<Round>) returns (chats: seq<Chat>)
    ensures chats == SessionChats(rounds, AsWritten)
  {
    chats := [];
    var i := 0;
    while i < |rounds|
      invariant 0 <= i <= |rounds|
      invariant chats + SessionChats(rounds[i..], AsWritten) == SessionChats(rounds, AsWritten)
    {
      var dataDir := Trim(rounds[i].dataDirLine);
      var directory := RetrieverDirectoryAsWritten(dataDir);
      var query := Trim(rounds[i].queryLine);
      SessionStep(rounds, i, AsWritten);
      if IsExitCommand(query) {
        break;
      }
      if query == "" {
        i := i + 1;
        continue;
      }
      ghost var rest := SessionChats(rounds[i + 1..], AsWritten);
      AppendAssociative(chats, [Chat(directory, query)], rest);
      chats := chats + [Chat(directory, query)];
      i := i + 1;
    }
  }

  /** One turn of the loop, read off the remaining rounds. */
  lemma SessionStep(rounds: seq<Round>, i: nat, rule: FolderRule)
    requires i < |rounds|
    ensures SessionChats(rounds[i..], rule) == Continue(TurnOf(rounds[i], rule), SessionChats(rounds[i + 1..], rule))
  {
    assert rounds[i..][0] == rounds[i] && rounds[i..][1..] == rounds[i + 1..];
  }

  /**
   * Every chat asks a non-empty question that is not an exit word and has
   * no surrounding blanks; there is at most one chat per round.
   */
  lemma {:induction false} SessionChatsShape(rounds: seq<Round>, rule: FolderRule)
    ensures |SessionChats(rounds, rule)| <= |rounds|
    ensures forall c :: c in SessionChats(rounds, rule) ==> AskedQuestion(c.question)
  {
    if rounds != [] {
      var t, rest := TurnOf(rounds[0], rule), SessionChats(rounds[1..], rule);
      SessionChatsShape(rounds[1..], rule);
      if t.Ask? {
        AskedTurn(rounds[0], rule);
        assert forall c :: c in Continue(t, rest) ==> c == t.chat || c in rest;
      }
    }
  }

  /** A question the loop asks: non-empty, no exit word, nothing blank around it. */
  predicate AskedQuestion(q: string)
  {
    q != "" && !IsExitCommand(q) && Trim(q) == q
  }

  lemma AskedTurn(r: Round, rule: FolderRule)
    requires TurnOf(r, rule).Ask?
    ensures AskedQuestion(TurnOf(r, rule).chat.question)
  {
    TrimIdempotent(r.queryLine);
  }

  /** Nothing typed after an exit word starts a chat. */
  lemma SessionStopsAtExit(rounds: seq<Round>, i: nat, rule: FolderRule)
    requires i < |rounds| && IsExitCommand(Trim(rounds[i].queryLine))
    ensures SessionChats(rounds, rule) == SessionChats(rounds[..i], rule)
  {
    SessionStopsAtStop(rounds, i, rule);
  }

  lemma {:induction false} SessionStopsAtStop(rounds: seq<Round>, i: nat, rule: FolderRule)
    requires i < |rounds| && TurnOf(rounds[i], rule) == Stop
    ensures SessionChats(rounds, rule) == SessionChats(rounds[..i], rule)
  {
    if i == 0 {
      assert rounds[..0] == [];
    } else {
      var prefix := rounds[..i];
      assert prefix[0] == rounds[0] && prefix[1..] == rounds[1..][..i - 1];
      assert rounds[1..][i - 1] == rounds[i];
      SessionStopsAtStop(rounds[1..], i - 1, rule);
    }
  }

  /** The chats with each folder replaced by the folder the branches evidently mean. */
  function WithMeantFolders(chats: seq<Chat>): seq<Chat>
  {
    if chats == [] then []
    else [Chat(RetrieverDirectory(chats[0].directory), chats[0].question)] + WithMeantFolders(chats[1..])
  }

  /**
   * The corrected session asks the same questions in the same order as the
   * session as written; only the folders differ, each mapped by the intended rule.
   */
  lemma {:induction false} CorrectedSessionMovesOnlyFolders(rounds: seq<Round>)
    ensures SessionChats(rounds, Corrected) == WithMeantFolders(SessionChats(rounds, AsWritten))
  {
    if rounds != [] {
      CorrectedSessionMovesOnlyFolders(rounds[1..]);
      var t := TurnOf(rounds[0], AsWritten);
      var rest := SessionChats(rounds[1..], AsWritten);
      if t.Ask? {
        var cs := [t.chat] + rest;
        assert cs[0] == t.chat && cs[1..] == rest;
      }
    }
  }

  /**
   * A blank folder line and a question the loop asks, such as "hello"
   * (App.HelloIsAsked): as written the chat gets the blank folder, corrected
   * the resources folder.
   */
  lemma BlankFolderSession(q: string)
    requires q != "" && Trim(q) == q && !IsExitCommand(q)
    ensures SessionChats([Round("", q)], AsWritten) == [Chat("", q)]
    ensures SessionChats([Round("", q)], Corrected) == [Chat(DataResourcesPath, q)]
  {
    var r := Round("", q);
    TrimEmpty();
    SingleRound(r, AsWritten);
    SingleRound(r, Corrected);
    AskedRound(r, AsWritten);
    AskedRound(r, Corrected);
    assert FolderFor(AsWritten, "") == "";
    assert FolderFor(Corrected, "") == DataResourcesPath;
  }

  lemma TrimEmpty()
    ensures Trim("") == ""
  {
  }

  /** A round whose trimmed question is asked starts one chat, with the rule's folder. */
  lemma AskedRound(r: Round, rule: FolderRule)
    requires Trim(r.queryLine) != "" && !IsExitCommand(Trim(r.queryLine))
    ensures TurnOf(r, rule) == Ask(Chat(FolderFor(rule, Trim(r.dataDirLine)), Trim(r.queryLine)))
  {
  }

  /** "hello" is a question the loop asks, and a blank folder line trims to "". */
  lemma HelloIsAsked()
    ensures Trim("hello") == "hello" && !IsExitCommand("hello")
  {
    var h := "hello";
    assert !IsTrimmable(h[0]) && !IsTrimmable(h[|h| - 1]);
    TrimOfTrimmed(h);
  }

  lemma SingleRound(r: Round, rule: FolderRule)
    ensures SessionChats([r], rule) == Continue(TurnOf(r, rule), [])
  {
    assert [r][1..] == [];
  }

  // ---- stochasticPrint ----

  const FastDrawThreshold := 0.92

  /** The pause after printing `c`, for the draws `r` of `nextInt(35)` and `draw` of `nextDouble()`. */
  function Delay(c: char, r: int, draw: real): int
  {
    if draw > FastDrawThreshold then 8
    else if c in ".?!" then 35 + r + 300
    else if c in ",:;" then 35 + r + 100
    else 35 + r
  }

  /**
   * Every pause lies in [8, 369]; a fast draw gives exactly 8, and otherwise
   * the pause tells the character's class: at least 335 after a sentence
   * end, between 135 and 169 after a clause mark, at most 69 after anything else.
   */
  lemma DelayBounds(c: char, r: int, draw: real)
    requires 0 <= r < 35
    ensures 8 <= Delay(c, r, draw) <= 369
    ensures draw > FastDrawThreshold ==> Delay(c, r, draw) == 8
    ensures draw <= FastDrawThreshold ==> (Delay(c, r, draw) >= 335 <==> c in ".?!")
    ensures draw <= FastDrawThreshold ==> (135 <= Delay(c, r, draw) <= 169 <==> c in ",:;")
    ensures draw <= FastDrawThreshold ==> (35 <= Delay(c, r, draw) <= 69 <==> c !in ".?!,:;")
  {
  }

  /** The per-character loop: a base pause, one punctuation surcharge, the fast-draw override. */
  method StochasticPrint(chunk: string, ints: seq<int>, doubles: seq<real>) returns (delays: seq<int>)
    requires |ints| >= |chunk| && |doubles| >= |chunk|
    requires forall i :: 0 <= i < |chunk| ==> 0 <= ints[i] < 35
    ensures |delays| == |chunk|
    ensures forall i :: 0 <= i < |chunk| ==> delays[i] == Delay(chunk[i], ints[i], doubles[i])
    ensures forall i :: 0 <= i < |chunk| ==> 8 <= delays[i] <= 369
  {
    delays := [];
    for i := 0 to |chunk|
      invariant |delays| == i
      invariant forall j :: 0 <= j < i ==> delays[j] == Delay(chunk[j], ints[j], doubles[j])
      invariant forall j :: 0 <= j < i ==> 8 <= delays[j] <= 369
    {
      var c := chunk[i];
      var delay := 35 + ints[i];
      if c in ".?!" {
        delay := delay + 300;
      } else if c in ",:;" {
        delay := delay + 100;
      }
      if doubles[i] > FastDrawThreshold {
        delay := 8;
      }
      DelayBounds(c, ints[i], doubles[i]);
      delays := delays + [delay];
    }
  }
}
