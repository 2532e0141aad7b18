/**
 The command handlers of botwithdb.py as transitions over the bot's state:
 the history store and the append-only `chats` audit log. The weather lookup
 and the text generator are oracles passed in; the reply that would be sent
 back and the external calls made are part of each step's outcome.
 */
module Bot {
  import opened Wrappers
  import opened Strings
  import History
  import Prompt

  /** One row of the `chats` table (its timestamp column is not modelled). */
  datatype LogEntry = LogEntry(uid: int, message: string, sender: string)

  const UserTag: string := "user"
  const BotTag: string := "bot"

  datatype State = State(store: History.Store, log: seq<LogEntry>)

  /** The part of the weather service's answer the bot reads: `weather[0].description`. */
  datatype WeatherReport = WeatherReport(description: string)

  /** A request sent to an outside service. */
  datatype Call = LookupWeather(city: string) | Generate(prompt: string)

  /** A handler's effect: the new state, the reply sent (if any), the outside calls in order. */
  datatype Outcome = Outcome(state: State, reply: Option<string>, calls: seq<Call>)

  const Greeting: string := "Hi! Welcome to OkayAyussbot!"
  const HelpText: string := "Help! How can I assist you?"
  const DefaultCity: string := "New York"

  /** The command names the handlers are registered under. */
  const StartCommand: string := "start"
  const HelpCommand: string := "help"
  const WeatherCommand: string := "fw"
  const AnswerCommand: string := "okayayuss"

  /** The state after appending `entries` to the audit log. */
  function Logged(st: State, entries: seq<LogEntry>): (st': State)
    ensures st'.store == st.store
    ensures |st'.log| == |st.log| + |entries|
    ensures st'.log[..|st.log|] == st.log && st'.log[|st.log|..] == entries
  {
    State(st.store, st.log + entries)
  }

  /** `/start`: one bot entry with the greeting, which is also the reply. */
  function Start(st: State, uid: int): (o: Outcome)
    ensures o.state.store == st.store
    ensures |o.state.log| == |st.log| + 1 && o.state.log[..|st.log|] == st.log
    ensures o.state.log[|st.log|] == LogEntry(uid, Greeting, BotTag)
    ensures o.reply == Some(Greeting) && o.calls == []
  {
    Outcome(Logged(st, [LogEntry(uid, Greeting, BotTag)]), Some(Greeting), [])
  }

  /** `/help`: one bot entry with the help text, which is also the reply. */
  function Help(st: State, uid: int): (o: Outcome)
    ensures o.state.store == st.store
    ensures |o.state.log| == |st.log| + 1 && o.state.log[..|st.log|] == st.log
    ensures o.state.log[|st.log|] == LogEntry(uid, HelpText, BotTag)
    ensures o.reply == Some(HelpText) && o.calls == []
  {
    Outcome(Logged(st, [LogEntry(uid, HelpText, BotTag)]), Some(HelpText), [])
  }

  /** Plain text: logged once as the user's and once as the bot's, replied unchanged. */
  function Echo(st: State, uid: int, text: string): (o: Outcome)
    ensures o.state.store == st.store
    ensures |o.state.log| == |st.log| + 2 && o.state.log[..|st.log|] == st.log
    ensures o.state.log[|st.log|] == LogEntry(uid, text, UserTag)
    ensures o.state.log[|st.log| + 1] == LogEntry(uid, text, BotTag)
    ensures o.reply == Some(text) && o.calls == []
  {
    Outcome(Logged(st, [LogEntry(uid, text, UserTag), LogEntry(uid, text, BotTag)]), Some(text), [])
  }

  /** The city `/fw` asks about: the arguments joined by spaces, or New York without any. */
  function City(args: seq<string>): (city: string)
    ensures |args| == 0 ==> city == DefaultCity
  {
    if |args| > 0 then Join(args, " ") else DefaultCity
  }

  /** Arguments without spaces are recovered from the city text by splitting on spaces. */
  lemma CityRoundTrip(args: seq<string>)
    requires |args| >= 1
    requires forall i :: 0 <= i < |args| ==> ' ' !in args[i]
    ensures Split(City(args), ' ') == args
  {
    SplitJoin(args, ' ');
  }

  /** The generator prompt built from a weather description. */
  function WeatherPrompt(description: string): string {
    "The weather is " + description + ". Write a funny phrase about this."
  }

  /** The reply and log text when the weather lookup fails. */
  function WeatherError(city: string): string {
    "Error fetching weather data for " + city + "."
  }

  /**
   `/fw`: look the city up; with a report, ask the generator for a phrase
   about its description, and log and reply with the phrase; without one,
   log and reply with the error text and never call the generator.
   */
  function FunnyWeather(st: State, uid: int, args: seq<string>,
                        weather: string -> Option<WeatherReport>,
                        generate: string -> string): (o: Outcome)
    ensures o.state.store == st.store
    ensures |o.state.log| == |st.log| + 1 && o.state.log[..|st.log|] == st.log
    ensures o.reply.Some? && o.state.log[|st.log|] == LogEntry(uid, o.reply.value, BotTag)
    ensures |o.calls| >= 1 && o.calls[0] == LookupWeather(City(args))
    ensures weather(City(args)).None? ==>
              && o.reply == Some(WeatherError(City(args)))
              && o.calls == [LookupWeather(City(args))]
    ensures weather(City(args)).Some? ==>
              var p := WeatherPrompt(weather(City(args)).value.description);
              && o.reply == Some(generate(p))
              && o.calls == [LookupWeather(City(args)), Generate(p)]
  {
    var city := City(args);
    match weather(city)
    case Some(report) =>
      var p := WeatherPrompt(report.description);
      var phrase := generate(p);
      Outcome(Logged(st, [LogEntry(uid, phrase, BotTag)]), Some(phrase), [LookupWeather(city), Generate(p)])
    case None =>
      var message := WeatherError(city);
      Outcome(Logged(st, [LogEntry(uid, message, BotTag)]), Some(message), [LookupWeather(city)])
  }

  /**
   `/okayayuss`: without arguments nothing at all happens. Otherwise the
   prompt is the arguments joined by spaces; it is logged as the user's, the
   history is read, the generator is asked once with the persona prompt built
   from that history, the answer is logged as the bot's, the exchange is
   stored, and the answer is the reply.
   */
  function Answer(st: State, uid: int, args: seq<string>, persona: string, generate: string -> string): (o: Outcome)
    ensures |args| == 0 ==> o == Outcome(st, None, [])
    ensures |args| > 0 ==>
              var prompt := Join(args, " ");
              var full := Prompt.FullPrompt(persona, prompt, History.Get(st.store, uid));
              && o.calls == [Generate(full)]
              && o.reply == Some(generate(full))
              && |o.state.log| == |st.log| + 2 && o.state.log[..|st.log|] == st.log
              && o.state.log[|st.log|] == LogEntry(uid, prompt, UserTag)
              && o.state.log[|st.log| + 1] == LogEntry(uid, generate(full), BotTag)
              && o.state.store == History.Update(st.store, uid, prompt, generate(full))
  {
    if |args| > 0 then
      var prompt := Join(args, " ");
      var st1 := Logged(st, [LogEntry(uid, prompt, UserTag)]);
      var history := History.Get(st1.store, uid);
      var answer := generate(Prompt.FullPrompt(persona, prompt, history));
      var st2 := Logged(st1, [LogEntry(uid, answer, BotTag)]);
      var st3 := State(History.Update(st2.store, uid, prompt, answer), st2.log);
      Outcome(st3, Some(answer), [Generate(Prompt.FullPrompt(persona, prompt, history))])
    else
      Outcome(st, None, [])
  }

  /** An inbound message: a command with its arguments, or plain text. */
  datatype Event = Command(name: string, args: seq<string>) | Text(text: string)

  /** An inbound message and the id of the user who sent it. */
  datatype Inbound = Inbound(uid: int, event: Event)

  /** Whether an inbound message is an `/okayayuss` command that does something. */
  predicate IsAnswer(ev: Event) {
    ev.Command? && ev.name == AnswerCommand && |ev.args| > 0
  }

  /**
   The handler table: four commands, plain text to the echo handler, and
   any other command ignored. Whatever the message, the audit log only
   grows, rows stay five columns wide, other users' rows are untouched,
   and only an `/okayayuss` command with arguments writes the store.
   */
  function Dispatch(st: State, m: Inbound,
                    persona: string,
                    weather: string -> Option<WeatherReport>,
                    generate: string -> string): (o: Outcome)
    ensures |o.state.log| >= |st.log| && o.state.log[..|st.log|] == st.log
    ensures History.WellFormed(st.store) ==> History.WellFormed(o.state.store)
    ensures forall other :: other != m.uid ==>
              (other in o.state.store <==> other in st.store) &&
              (other in st.store ==> o.state.store[other] == st.store[other])
    ensures !IsAnswer(m.event) ==> o.state.store == st.store
    ensures IsAnswer(m.event) ==> m.uid in o.state.store
  {
    match m.event
    case Text(text) => Echo(st, m.uid, text)
    case Command(name, args) =>
      if name == StartCommand then Start(st, m.uid)
      else if name == HelpCommand then Help(st, m.uid)
      else if name == WeatherCommand then FunnyWeather(st, m.uid, args, weather, generate)
      else if name == AnswerCommand then Answer(st, m.uid, args, persona, generate)
      else Outcome(st, None, [])
  }

  /** The state after handling each message in order. */
  function Run(st: State, ms: seq<Inbound>,
               persona: string,
               weather: string -> Option<WeatherReport>,
               generate: string -> string): State
  {
    if |ms| == 0 then st
    else Dispatch(Run(st, ms[..|ms| - 1], persona, weather, generate), ms[|ms| - 1], persona, weather, generate).state
  }

  /**
   Over any run of messages the log is append-only, rows stay five columns
   wide, and a user who sent no message keeps the row they had.
   */
  lemma {:induction false} RunInvariants(st: State, ms: seq<Inbound>,
                                         persona: string, weather: string -> Option<WeatherReport>,
                                         generate: string -> string, other: int)
    ensures var st' := Run(st, ms, persona, weather, generate);
            |st'.log| >= |st.log| && st'.log[..|st.log|] == st.log
    ensures History.WellFormed(st.store) ==> History.WellFormed(Run(st, ms, persona, weather, generate).store)
    ensures (forall i :: 0 <= i < |ms| ==> ms[i].uid != other) ==>
              var st' := Run(st, ms, persona, weather, generate);
              (other in st'.store <==> other in st.store) &&
              (other in st.store ==> st'.store[other] == st.store[other])
  {
    if |ms| > 0 {
      var ms' := ms[..|ms| - 1];
      var m := ms[|ms| - 1];
      var mid := Run(st, ms', persona, weather, generate);
      var st' := Run(st, ms, persona, weather, generate);
      RunInvariants(st, ms', persona, weather, generate, other);
      assert st' == Dispatch(mid, m, persona, weather, generate).state;
      assert st'.log[..|st.log|] == st.log by {
        assert st'.log[..|st.log|] == st'.log[..|mid.log|][..|st.log|];
      }
      if forall i :: 0 <= i < |ms| ==> ms[i].uid != other {
        assert m.uid != other;
        assert forall i :: 0 <= i < |ms'| ==> ms'[i].uid != other by {
          forall i | 0 <= i < |ms'| ensures ms'[i].uid != other {
            assert ms'[i] == ms[i];
          }
        }
      }
    }
  }

  /** Every message is an `/okayayuss` command with arguments from `uid`. */
  predicate AllAnswers(ms: seq<Inbound>, uid: int) {
    forall i :: 0 <= i < |ms| ==> ms[i].uid == uid && IsAnswer(ms[i].event)
  }

  /** The text a message hands to `answer`: its arguments joined by spaces. */
  function UserText(m: Inbound): string {
    if m.event.Command? then Join(m.event.args, " ") else ""
  }

  /**
   The exchange the `i`-th message of a run stores if it is an `/okayayuss`
   command: its text and the answer generated from the history as it stood
   after the first `i` messages.
   */
  function TurnAt(st: State, ms: seq<Inbound>, i: nat,
                  persona: string, weather: string -> Option<WeatherReport>,
                  generate: string -> string): History.Turn
    requires i < |ms|
  {
    var before := Run(st, ms[..i], persona, weather, generate);
    var text := UserText(ms[i]);
    History.Turn(text, generate(Prompt.FullPrompt(persona, text, History.Get(before.store, ms[i].uid))))
  }

  /** The exchanges a run of `/okayayuss` commands stores, one per message. */
  function AnswerTurns(st: State, ms: seq<Inbound>,
                       persona: string, weather: string -> Option<WeatherReport>,
                       generate: string -> string): (ts: seq<History.Turn>)
    ensures |ts| == |ms|
    ensures forall i :: 0 <= i < |ms| ==> ts[i] == TurnAt(st, ms, i, persona, weather, generate)
  {
    seq(|ms|, i requires 0 <= i < |ms| => TurnAt(st, ms, i, persona, weather, generate))
  }

  /**
   A run of `/okayayuss` commands from one user stores exactly what calling
   `update_chat_history` with each prompt and its answer, in order, stores;
   each stored user utterance is that command's arguments joined by spaces.
   */
  lemma AnswersReplay(st: State, ms: seq<Inbound>, uid: int,
                      persona: string, weather: string -> Option<WeatherReport>,
                      generate: string -> string)
    requires AllAnswers(ms, uid)
    ensures var ts := AnswerTurns(st, ms, persona, weather, generate);
            && Run(st, ms, persona, weather, generate).store == History.Replay(st.store, uid, ts)
            && forall i :: 0 <= i < |ms| ==> ts[i].user == Join(ms[i].event.args, " ")
  {
    AnswersStore(st, ms, uid, persona, weather, generate);
  }

  /** The store half of `AnswersReplay`, by induction on the run. */
  lemma {:induction false} AnswersStore(st: State, ms: seq<Inbound>, uid: int,
                                        persona: string, weather: string -> Option<WeatherReport>,
                                        generate: string -> string)
    requires AllAnswers(ms, uid)
    ensures Run(st, ms, persona, weather, generate).store
            == History.Replay(st.store, uid, AnswerTurns(st, ms, persona, weather, generate))
  {
    if |ms| > 0 {
      var ms' := ms[..|ms| - 1];
      assert AllAnswers(ms', uid) by {
        forall i | 0 <= i < |ms'| ensures ms'[i].uid == uid && IsAnswer(ms'[i].event) {
          assert ms'[i] == ms[i];
        }
      }
      AnswersStore(st, ms', uid, persona, weather, generate);
      AnswerStep(st, ms, uid, persona, weather, generate);
    }
  }

  /**
   One `/okayayuss` from `uid` at the end of a run: its turn extends the
   turns of the shorter run, its user text is the arguments joined by
   spaces, and the handler stores it exactly as one more step of `Replay`.
   */
  lemma AnswerStep(st: State, ms: seq<Inbound>, uid: int,
                   persona: string, weather: string -> Option<WeatherReport>,
                   generate: string -> string)
    requires |ms| > 0 && ms[|ms| - 1].uid == uid && IsAnswer(ms[|ms| - 1].event)
    ensures var ms' := ms[..|ms| - 1];
            var ts := AnswerTurns(st, ms, persona, weather, generate);
            var t := ts[|ts| - 1];
            && ts[..|ts| - 1] == AnswerTurns(st, ms', persona, weather, generate)
            && History.Replay(st.store, uid, ts)
               == History.Update(History.Replay(st.store, uid, ts[..|ts| - 1]), uid, t.user, t.bot)
            && t.user == Join(ms[|ms| - 1].event.args, " ")
            && Run(st, ms, persona, weather, generate).store
               == History.Update(Run(st, ms', persona, weather, generate).store, uid, t.user, t.bot)
  {
    LastAnswer(st, ms, uid, persona, weather, generate);
    TurnsPrefix(st, ms, persona, weather, generate);
  }

  /** The store after a run that ends in an `/okayayuss` command from `uid`. */
  lemma LastAnswer(st: State, ms: seq<Inbound>, uid: int,
                   persona: string, weather: string -> Option<WeatherReport>,
                   generate: string -> string)
    requires |ms| > 0 && ms[|ms| - 1].uid == uid && IsAnswer(ms[|ms| - 1].event)
    ensures var t := TurnAt(st, ms, |ms| - 1, persona, weather, generate);
            Run(st, ms, persona, weather, generate).store
            == History.Update(Run(st, ms[..|ms| - 1], persona, weather, generate).store, uid, t.user, t.bot)
  {
    var m := ms[|ms| - 1];
    var mid := Run(st, ms[..|ms| - 1], persona, weather, generate);
    assert Run(st, ms, persona, weather, generate) == Dispatch(mid, m, persona, weather, generate).state;
    assert Dispatch(mid, m, persona, weather, generate) == Answer(mid, uid, m.event.args, persona, generate);
  }

  /** The turns of a run extend the turns of its prefix by one. */
  lemma TurnsPrefix(st: State, ms: seq<Inbound>,
                    persona: string, weather: string -> Option<WeatherReport>,
                    generate: string -> string)
    requires |ms| > 0
    ensures var ts := AnswerTurns(st, ms, persona, weather, generate);
            ts[..|ts| - 1] == AnswerTurns(st, ms[..|ms| - 1], persona, weather, generate)
  {
    var ms' := ms[..|ms| - 1];
    var ts := AnswerTurns(st, ms, persona, weather, generate);
    var ts' := AnswerTurns(st, ms', persona, weather, generate);
    forall i | 0 <= i < |ts'| ensures ts[i] == ts'[i] {
      assert ms[..i] == ms'[..i] && ms[i] == ms'[i];
    }
  }

  /**
   The scenario of N `/okayayuss` commands from a user with no row: with six
   or more the row holds the last five exchanges, oldest first; with two to
   five it holds exchanges 2..N behind NULLs, the first one lost.
   */
  lemma AnswerScenario(st: State, ms: seq<Inbound>, uid: int,
                       persona: string, weather: string -> Option<WeatherReport>,
                       generate: string -> string)
    requires uid !in st.store
    requires AllAnswers(ms, uid)
    ensures var row := History.Get(Run(st, ms, persona, weather, generate).store, uid);
            var es := History.Exchanges(AnswerTurns(st, ms, persona, weather, generate));
            && (|ms| > History.Width ==> row == History.Filled(History.LastN(es, History.Width)))
            && (2 <= |ms| <= History.Width ==>
                  row == History.Nulls(History.Width - (|ms| - 1)) + History.Filled(es[1..]))
  {
    AnswersReplay(st, ms, uid, persona, weather, generate);
    var ts := AnswerTurns(st, ms, persona, weather, generate);
    if |ms| > History.Width {
      History.LongRunIsWindow(st.store, uid, ts);
    } else if 2 <= |ms| {
      History.ShortRunDropsOne(st.store, uid, ts);
    }
  }
}
