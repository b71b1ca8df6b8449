/**
 * The voice chatbot's command handling: what `listen` hands on, how
 * `process_command` classifies a command and extracts its argument, which
 * application `open_app` launches, and the `run` loop that feeds heard
 * commands to `process_command` until one of them says stop.
 *
 * Speech output and the calls into the browser, Wikipedia and the operating
 * system are recorded as `Effect` events rather than performed.
 */
module Chatbot {
  import opened Text

  // ---------------------------------------------------------------------------
  // Events
  // ---------------------------------------------------------------------------

  /** The fixed lines the bot speaks. */
  datatype Line =
    | Welcome          // "Hello! I'm your voice chatbot. ..."
    | NotUnderstood    // "Sorry, I didn't understand that."
    | ServiceDown      // "Sorry, my speech service is down."
    | HelloBack        // "Hello! How can I assist you today?"
    | CurrentTime      // "The current time is ..."
    | Goodbye          // "Goodbye! Have a great day!"
    | Rephrase         // "I'm not sure how to respond to that. ..."

  /** How `open_app` starts an application. */
  datatype Launch =
    | Popen(path: string)        // a known application, by its full path
    | StartFile(name: string)    // anything else, handed to the shell

  /** What the bot does that is visible outside it. */
  datatype Effect =
    | Say(line: Line)
    | WebSearch(query: string)
    | WikiLookup(query: string)
    | OpenApp(name: string, launch: Launch)

  // ---------------------------------------------------------------------------
  // listen
  // ---------------------------------------------------------------------------

  /** What the speech recogniser made of one utterance. */
  datatype Recognition =
    | Recognized(transcript: string)
    | UnknownValue
    | RequestError

  /** What `listen` returns, and what it says on the way. */
  datatype Heard = Heard(command: string, effects: seq<Effect>)

  /**
   * `listen`: the lower-cased transcript, or the empty string (after an
   * apology) when recognition failed.
   */
  function Listen(rec: Recognition): (h: Heard)
    ensures IsLower(h.command)
    ensures rec.Recognized? ==> h.command == Lower(rec.transcript) && h.effects == []
    ensures rec.UnknownValue? ==> h.command == "" && h.effects == [Say(NotUnderstood)]
    ensures rec.RequestError? ==> h.command == "" && h.effects == [Say(ServiceDown)]
  {
    match rec
    case Recognized(text) => Heard(Lower(text), [])
    case UnknownValue => Heard("", [Say(NotUnderstood)])
    case RequestError => Heard("", [Say(ServiceDown)])
  }

  // ---------------------------------------------------------------------------
  // open_app
  // ---------------------------------------------------------------------------

  /** The applications `open_app` knows by name. */
  const AppPaths: map<string, string> := map[
    "chrome" := "C:\\Program Files\\Google\\Chrome\\Application\\chrome.exe",
    "notepad" := "C:\\Windows\\notepad.exe",
    "calculator" := "C:\\Windows\\System32\\calc.exe",
    "paint" := "C:\\Windows\\System32\\mspaint.exe"
  ]

  /**
   * How `open_app` starts `appName`: a known name, in any letter case, by its
   * path; any other name as given.
   */
  function LaunchFor(appName: string): (l: Launch)
    ensures l.Popen? <==> Lower(appName) in AppPaths
    ensures l.Popen? ==> l.path == AppPaths[Lower(appName)]
    ensures l.StartFile? ==> l.name == appName
  {
    if Lower(appName) in AppPaths then Popen(AppPaths[Lower(appName)]) else StartFile(appName)
  }

  /** Exactly four applications are known by name. */
  lemma KnownApps()
    ensures AppPaths.Keys == {"chrome", "notepad", "calculator", "paint"}
  {
  }

  /** Names that differ only in letter case start the same application. */
  lemma LaunchCaseInsensitive(a: string, b: string)
    requires Lower(a) == Lower(b)
    requires Lower(a) in AppPaths
    ensures LaunchFor(a) == LaunchFor(b)
  {
  }

  // ---------------------------------------------------------------------------
  // process_command
  // ---------------------------------------------------------------------------

  /** What a command was taken to ask for. */
  datatype Intent =
    | Greeting
    | Time
    | Search(query: string)
    | Wiki(query: string)
    | Open(name: string)
    | Stop
    | Unknown

  /** The outcome of `process_command`: the intent, and whether to go on. */
  datatype Reply = Reply(intent: Intent, continues: bool)

  /**
   * A command's argument: every occurrence of `keyword` removed, then the
   * result stripped (the Wikipedia query and the application name).
   */
  function StripOut(command: string, keyword: string): (arg: string)
    requires keyword != []
    ensures IsStripped(arg) && |arg| <= |command|
  {
    Strip(RemoveAll(command, keyword))
  }

  /** The search query: "search" removed, then "google" removed and stripped. */
  function SearchQuery(command: string): (q: string)
    ensures IsStripped(q) && |q| <= |command|
  {
    StripOut(RemoveAll(command, "search"), "google")
  }

  /**
   * `process_command`: the first keyword group found in the command decides
   * the intent; only a stop or exit command ends the conversation.
   */
  function ProcessCommand(command: string): (r: Reply)
    ensures r.continues <==> r.intent != Stop
  {
    if Contains(command, "hello") || Contains(command, "hi") then Reply(Greeting, true)
    else if Contains(command, "time") then Reply(Time, true)
    else if Contains(command, "search") || Contains(command, "google") then Reply(Search(SearchQuery(command)), true)
    else if Contains(command, "wikipedia") then Reply(Wiki(StripOut(command, "wikipedia")), true)
    else if Contains(command, "open") then Reply(Open(StripOut(command, "open")), true)
    else if Contains(command, "stop") || Contains(command, "exit") then Reply(Stop, false)
    else Reply(Unknown, true)
  }

  /**
   * What handling an intent does: the spoken answer, or the call into the
   * browser, Wikipedia or the operating system, which is skipped when its
   * argument came out empty.
   */
  function IntentEffects(intent: Intent): (effects: seq<Effect>)
    ensures |effects| <= 1
    ensures effects == [] <==> (intent.Search? || intent.Wiki? || intent.Open?) && Argument(intent) == ""
  {
    match intent
    case Greeting => [Say(HelloBack)]
    case Time => [Say(CurrentTime)]
    case Search(q) => if q != "" then [WebSearch(q)] else []
    case Wiki(q) => if q != "" then [WikiLookup(q)] else []
    case Open(name) => if name != "" then [OpenApp(name, LaunchFor(name))] else []
    case Stop => [Say(Goodbye)]
    case Unknown => [Say(Rephrase)]
  }

  /** The argument an intent carries, "" for those that carry none. */
  function Argument(intent: Intent): string
  {
    match intent
    case Search(q) => q
    case Wiki(q) => q
    case Open(name) => name
    case _ => ""
  }

  // --- The same dispatch, as a table of keyword groups tried in order --------

  /** Keyword groups, in the order `process_command` tries them. */
  const Rules: seq<seq<string>> := [
    ["hello", "hi"], ["time"], ["search", "google"], ["wikipedia"], ["open"], ["stop", "exit"]
  ]

  /** Some keyword of `keys` occurs in `command`. */
  predicate MatchesAny(command: string, keys: seq<string>)
  {
    exists k :: k in keys && Contains(command, k)
  }

  /** Index of the first group from `j` on that matches; `|Rules|` if none. */
  function FirstRuleFrom(command: string, j: nat): (k: nat)
    requires j <= |Rules|
    ensures j <= k <= |Rules|
    ensures forall m :: j <= m < k ==> !MatchesAny(command, Rules[m])
    ensures k < |Rules| ==> MatchesAny(command, Rules[k])
    decreases |Rules| - j
  {
    if j == |Rules| then j
    else if MatchesAny(command, Rules[j]) then j
    else FirstRuleFrom(command, j + 1)
  }

  /** The position of each intent's group in `Rules`; `Unknown` comes last. */
  function RuleIndex(intent: Intent): nat
  {
    match intent
    case Greeting => 0
    case Time => 1
    case Search(_) => 2
    case Wiki(_) => 3
    case Open(_) => 4
    case Stop => 5
    case Unknown => 6
  }

  /** A group of one keyword matches when that keyword occurs. */
  lemma MatchesOne(command: string, a: string)
    ensures MatchesAny(command, [a]) <==> Contains(command, a)
  {
    assert a in [a];
  }

  /** A group of two keywords matches when either of them occurs. */
  lemma MatchesTwo(command: string, a: string, b: string)
    ensures MatchesAny(command, [a, b]) <==> Contains(command, a) || Contains(command, b)
  {
    assert a in [a, b] && b in [a, b];
  }

  /** `process_command` picks the first keyword group, in table order, that matches. */
  lemma DispatchFollowsRules(command: string)
    ensures RuleIndex(ProcessCommand(command).intent) == FirstRuleFrom(command, 0)
  {
    MatchesTwo(command, "hello", "hi");
    MatchesOne(command, "time");
    MatchesTwo(command, "search", "google");
    MatchesOne(command, "wikipedia");
    MatchesOne(command, "open");
    MatchesTwo(command, "stop", "exit");
    var k := FirstRuleFrom(command, 0);
    assert Rules[0] == ["hello", "hi"] && Rules[1] == ["time"] && Rules[2] == ["search", "google"];
    assert Rules[3] == ["wikipedia"] && Rules[4] == ["open"] && Rules[5] == ["stop", "exit"];
  }

  /**
   * `process_command` returns False exactly for a command that mentions
   * "stop" or "exit" and none of the earlier keywords.
   */
  lemma StopsExactly(command: string)
    ensures !ProcessCommand(command).continues <==>
      && (Contains(command, "stop") || Contains(command, "exit"))
      && !Contains(command, "hello") && !Contains(command, "hi")
      && !Contains(command, "time")
      && !Contains(command, "search") && !Contains(command, "google")
      && !Contains(command, "wikipedia")
      && !Contains(command, "open")
  {
  }

  /**
   * The argument of a search, Wikipedia or open command is the command with
   * its keywords cut out, stripped.
   */
  lemma ArgumentsExtracted(command: string)
    ensures var intent := ProcessCommand(command).intent;
      && (intent.Search? ==> intent.query == SearchQuery(command))
      && (intent.Wiki? ==> intent.query == StripOut(command, "wikipedia"))
      && (intent.Open? ==> intent.name == StripOut(command, "open"))
  {
    var r := ProcessCommand(command);
    if Contains(command, "hello") || Contains(command, "hi") || Contains(command, "time") {
      assert !r.intent.Search? && !r.intent.Wiki? && !r.intent.Open?;
    } else if Contains(command, "search") || Contains(command, "google") {
      assert r.intent == Search(SearchQuery(command));
    } else if Contains(command, "wikipedia") {
      assert r.intent == Wiki(StripOut(command, "wikipedia"));
    } else if Contains(command, "open") {
      assert r.intent == Open(StripOut(command, "open"));
    } else {
      assert !r.intent.Search? && !r.intent.Wiki? && !r.intent.Open?;
    }
  }

  /** "stop this" holds "hi", so it is taken as a greeting and the bot goes on. */
  lemma StopThisGreets()
    ensures ProcessCommand("stop this") == Reply(Greeting, true)
  {
    var c := "stop this";
    assert c[6..][..2] == "hi";
    assert Contains(c[6..], "hi");
    assert c[1..][5..] == c[6..];
    assert c[2..][4..] == c[6..];
    assert c[3..][3..] == c[6..];
    assert c[4..][2..] == c[6..];
    assert c[5..][1..] == c[6..];
  }

  /** A plain "stop" ends the conversation. */
  lemma PlainStopStops()
    ensures ProcessCommand("stop") == Reply(Stop, false)
  {
    var c := "stop";
    assert !('h' in c);
    if Contains(c, "hi") { ContainsFirstChar(c, "hi"); }
    if Contains(c, "hello") { ContainsFirstChar(c, "hello"); }
    if Contains(c, "search") { ContainsShorter(c, "search"); }
    if Contains(c, "google") { ContainsShorter(c, "google"); }
    if Contains(c, "wikipedia") { ContainsShorter(c, "wikipedia"); }
    assert !StartsWith(c, "time") && !StartsWith(c, "open");
    if Contains(c[1..], "time") { ContainsShorter(c[1..], "time"); }
    if Contains(c[1..], "open") { ContainsShorter(c[1..], "open"); }
    assert StartsWith(c, "stop");
  }

  // ---------------------------------------------------------------------------
  // run
  // ---------------------------------------------------------------------------

  /** A command that `run` hands to `process_command` and that ends the run. */
  predicate EndsRun(command: string)
    ensures EndsRun(command) ==> Contains(command, "stop") || Contains(command, "exit")
  {
    command != "" && !ProcessCommand(command).continues
  }

  /** The commands `run` hands to `process_command`, in order. */
  function Handled(recs: seq<Recognition>): (commands: seq<string>)
    ensures |commands| <= |recs|
    ensures forall i :: 0 <= i < |commands| ==> commands[i] != "" && IsLower(commands[i])
  {
    if recs == [] then []
    else
      var c := Listen(recs[0]).command;
      if c == "" then Handled(recs[1..])
      else if EndsRun(c) then [c]
      else [c] + Handled(recs[1..])
  }

  /**
   * Everything `run` does after its welcome line, utterance by utterance:
   * at most one event each, an apology or the answer to a command.
   */
  function SessionLog(recs: seq<Recognition>): (log: seq<Effect>)
    ensures |log| <= |recs|
  {
    if recs == [] then []
    else
      var h := Listen(recs[0]);
      if h.command == "" then h.effects + SessionLog(recs[1..])
      else
        var reply := ProcessCommand(h.command);
        var here := h.effects + IntentEffects(reply.intent);
        if reply.continues then here + SessionLog(recs[1..]) else here
  }

  /** The non-empty commands `listen` returns for `recs`, in order. */
  function NonEmptyCommands(recs: seq<Recognition>): seq<string>
  {
    if recs == [] then []
    else
      var c := Listen(recs[0]).command;
      (if c == "" then [] else [c]) + NonEmptyCommands(recs[1..])
  }

  /**
   * When utterance `k` is the first stop command, `run` handles every
   * non-empty command before it, then that one, and nothing after it.
   */
  lemma {:induction false} HaltsAtFirstStop(recs: seq<Recognition>, k: nat)
    requires k < |recs|
    requires EndsRun(Listen(recs[k]).command)
    requires forall j :: 0 <= j < k ==> !EndsRun(Listen(recs[j]).command)
    ensures Handled(recs) == NonEmptyCommands(recs[..k]) + [Listen(recs[k]).command]
  {
    if k > 0 {
      assert recs[1..][..k - 1] == recs[..k][1..];
      HaltsAtFirstStop(recs[1..], k - 1);
    }
  }

  /** Without a stop command, `run` handles every non-empty command it hears. */
  lemma {:induction false} NoStopHandlesAll(recs: seq<Recognition>)
    requires forall j :: 0 <= j < |recs| ==> !EndsRun(Listen(recs[j]).command)
    ensures Handled(recs) == NonEmptyCommands(recs)
  {
    if recs != [] {
      NoStopHandlesAll(recs[1..]);
    }
  }

  /** Every handled command but the last lets the run continue. */
  lemma {:induction false} OnlyLastEndsRun(recs: seq<Recognition>)
    ensures forall i :: 0 <= i < |Handled(recs)| - 1 ==> !EndsRun(Handled(recs)[i])
  {
    if recs != [] {
      OnlyLastEndsRun(recs[1..]);
    }
  }

  /** The last thing in `log` is the goodbye line. */
  predicate EndsWithGoodbye(log: seq<Effect>)
  {
    log != [] && log[|log| - 1] == Say(Goodbye)
  }

  /** The last of `commands` is one that ends the run. */
  predicate EndsOnStop(commands: seq<string>)
  {
    commands != [] && EndsRun(commands[|commands| - 1])
  }

  /** The last command the run handled is one that ends it. */
  predicate Stopped(recs: seq<Recognition>)
  {
    EndsOnStop(Handled(recs))
  }

  /** A concatenation ends with the goodbye line when its last non-empty part does. */
  lemma GoodbyeAtEnd(a: seq<Effect>, b: seq<Effect>)
    ensures EndsWithGoodbye(a + b) <==> if b == [] then EndsWithGoodbye(a) else EndsWithGoodbye(b)
  {
    if b == [] {
      assert a + b == a;
    } else {
      assert (a + b)[|a + b| - 1] == b[|b| - 1];
    }
  }

  /** Of all the answers, only the one to a stop command ends with the goodbye line. */
  lemma GoodbyeOnlyForStop(intent: Intent)
    ensures EndsWithGoodbye(IntentEffects(intent)) <==> intent == Stop
  {
  }

  /** `listen`'s apologies are not the goodbye line. */
  lemma ListenSaysNoGoodbye(rec: Recognition)
    ensures !EndsWithGoodbye(Listen(rec).effects)
  {
  }

  /**
   * One step of `GoodbyeIffStopped` for a command that lets the run go on:
   * what it says does not end with the goodbye line, and it is not the
   * last command handled unless nothing follows it.
   */
  lemma GoodbyeGoOn(c: string, said: seq<Effect>, later: seq<Effect>, laterCommands: seq<string>)
    requires !EndsRun(c) && !EndsWithGoodbye(said)
    requires EndsWithGoodbye(later) <==> EndsOnStop(laterCommands)
    ensures EndsWithGoodbye(said + later) <==> EndsOnStop([c] + laterCommands)
  {
    GoodbyeAtEnd(said, later);
    var all := [c] + laterCommands;
    assert laterCommands != [] ==> all[|all| - 1] == laterCommands[|laterCommands| - 1];
  }

  /**
   * The session log ends with "Goodbye! Have a great day!" exactly when the
   * run stopped at a stop command; an apology or any other answer never
   * comes last in a stopped run, and the goodbye is said for no other command.
   */
  lemma {:induction false} GoodbyeIffStopped(recs: seq<Recognition>)
    ensures EndsWithGoodbye(SessionLog(recs)) <==> Stopped(recs)
  {
    if recs != [] {
      var h := Listen(recs[0]);
      var rest := recs[1..];
      GoodbyeIffStopped(rest);
      ListenSaysNoGoodbye(recs[0]);
      if h.command == "" {
        SkipStep(recs);
        GoodbyeAtEnd(h.effects, SessionLog(rest));
      } else {
        var intent := ProcessCommand(h.command).intent;
        var said := IntentEffects(intent);
        GoodbyeOnlyForStop(intent);
        GoodbyeAtEnd(h.effects, said);
        if EndsRun(h.command) {
          StopStep(recs);
        } else {
          GoOnStep(recs);
          GoodbyeGoOn(h.command, h.effects + said, SessionLog(rest), Handled(rest));
        }
      }
    }
  }

  /** An utterance heard as nothing is skipped, after any apology. */
  lemma SkipStep(tail: seq<Recognition>)
    requires tail != [] && Listen(tail[0]).command == ""
    ensures Handled(tail) == Handled(tail[1..])
    ensures SessionLog(tail) == Listen(tail[0]).effects + SessionLog(tail[1..])
  {
  }

  /** A command that lets the run continue is handled, and the run goes on. */
  lemma GoOnStep(tail: seq<Recognition>)
    requires tail != [] && Listen(tail[0]).command != "" && !EndsRun(Listen(tail[0]).command)
    ensures var h := Listen(tail[0]);
      && Handled(tail) == [h.command] + Handled(tail[1..])
      && SessionLog(tail) == h.effects + IntentEffects(ProcessCommand(h.command).intent) + SessionLog(tail[1..])
  {
  }

  /** A stop command is the last one handled. */
  lemma StopStep(tail: seq<Recognition>)
    requires tail != [] && EndsRun(Listen(tail[0]).command)
    ensures var h := Listen(tail[0]);
      && Handled(tail) == [h.command]
      && SessionLog(tail) == h.effects + IntentEffects(ProcessCommand(h.command).intent)
  {
  }

  /** Regrouping a concatenation. */
  lemma Regroup<T>(done: seq<T>, a: seq<T>, b: seq<T>, rest: seq<T>)
    ensures done + a + b + rest == done + (a + b + rest)
    ensures done + a + rest == done + (a + rest)
  {
  }

  /**
   * `run`: speak the welcome line, then listen to each utterance in turn,
   * hand every non-empty command to `process_command`, and stop after the
   * first one that answers False. Returns the handled commands and
   * everything said or done.
   */
  method Run(recs: seq<Recognition>) returns (handled: seq<string>, log: seq<Effect>)
    ensures handled == Handled(recs)
    ensures log == [Say(Welcome)] + SessionLog(recs)
  {
    handled := [];
    log := [Say(Welcome)];
    var i := 0;
    while i < |recs|
      invariant 0 <= i <= |recs|
      invariant handled + Handled(recs[i..]) == Handled(recs)
      invariant log + SessionLog(recs[i..]) == [Say(Welcome)] + SessionLog(recs)
    {
      var heard := Listen(recs[i]);
      ghost var tail := recs[i..];
      assert tail[0] == recs[i] && tail[1..] == recs[i + 1..];
      if heard.command == "" {
        SkipStep(tail);
        Regroup(log, heard.effects, [], SessionLog(tail[1..]));
        log := log + heard.effects;
      } else {
        var reply := ProcessCommand(heard.command);
        var said := IntentEffects(reply.intent);
        if !reply.continues {
          StopStep(tail);
          Regroup(log, heard.effects, said, []);
          handled := handled + [heard.command];
          log := log + heard.effects + said;
          break;
        }
        GoOnStep(tail);
        Regroup(log, heard.effects, said, SessionLog(tail[1..]));
        Regroup(handled, [heard.command], [], Handled(tail[1..]));
        handled := handled + [heard.command];
        log := log + heard.effects + said;
      }
      i := i + 1;
    }
    assert recs[|recs|..] == [];
  }
}
