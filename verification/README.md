# OkayAyuss chat bot: conversation-history store and handlers

A Dafny model of the logic in `botwithdb.py`, a Telegram bot that keeps a
five-slot conversation history per user in SQLite and answers through a
generative text service.

- `History` (history.dfy) models the `chat_history` table as a map from user
  id to a row of five nullable text columns, and the two functions that
  touch it. `get_chat_history` is `Get`. `update_chat_history` is `Update`.
  The model follows the code as written. A row read back from the table
  always has five columns, so `pop(0)` fires on every update of an existing
  row, including the second update of a new user. The first exchange is
  therefore always lost on the second update. The lemmas compare this with
  a "keep the last five exchanges" window. From the sixth update on, the two
  agree (`LongRunIsWindow`). Between the second and fifth update, the row
  holds exchanges 2..N behind NULLs, so the first exchange is missing
  where the window would still keep it (`ShortRunDropsOne`).
- `Prompt` (prompt.dfy) models the prompt `ai` builds. Each non-empty
  history slot gives one line `Conversation k: ...`. Here `k` is the slot's
  1-based position, because `enumerate` numbers the slots before the filter
  drops any. The lines are joined by newlines, then a newline, the fixed
  persona text and the user text follow. The bot's own persona text, the
  literal of botwithdb.py:193, is the constant `Prompt.Persona`.
  `FullPrompt`, `Bot.Answer`, `Bot.Dispatch` and `Bot.Run` take the persona
  as a parameter and are stated for any persona text, which keeps the long
  literal out of proofs that do not need its characters. `NewUserPrompt`
  states the prompt with `Prompt.Persona` itself.
- `Bot` (bot.dfy) models the handlers `start`, `help_command`, `echo`,
  `funny_weather` and `answer` as functions from a state (history store plus
  the `chats` audit log) to an outcome: the new state, the reply, and the
  outside calls made. The weather lookup and the text generator are
  function parameters. `Dispatch` is the handler table of `main`, and `Run`
  handles a sequence of messages in order.
- `Strings` (strings.dfy) holds `' '.join`/`"\n".join`, its partner
  `split`, and the decimal rendering of slot numbers.

The five `conversationK` columns and the `len(conversations) >= 5` test at
botwithdb.py:103 suggest a keep-the-last-five window. The code keeps that
window only from the sixth update on (`LongRunIsWindow`). From the second
to the fifth update it has already dropped the first exchange
(`ShortRunDropsOne`, `SecondUpdateLosesFirst`). The stored form
`User: u | Bot: b` cannot be parsed back into its two parts
(`ExchangeAmbiguous`).

## Model

| member | source | states |
|---|---|---|
| History.Get | botwithdb.py:122-128 | an unknown user reads the empty sequence; a known user reads the whole row, NULL columns included; on a well-formed table that is exactly five slots |
| History.Update | botwithdb.py:89-119 | a new user gets the row [exchange, NULL, NULL, NULL, NULL]; an existing five-column row loses column 1, columns 2-5 move left and the exchange lands in column 5; the row stays five wide; no other user's row changes |
| History.GetAfterUpdate | botwithdb.py:100-116 | read after write: the user's five columns hold the new exchange (first for a new user, last otherwise); other users read what they read before |
| History.ReplayOthersUnchanged | botwithdb.py:106-110 | any number of updates for one user leave every other user's row, and its presence, unchanged |
| History.ReplayFromNew | botwithdb.py:100-116 | after N >= 2 updates of a new user the non-NULL columns are the last min(N-1, 5) of exchanges 2..N, oldest first, with NULLs only in front |
| History.ReplayRow | botwithdb.py:100-116 | N updates of one user leave that user present, with the row obtained by applying the new-row rule once and the pop-and-append rule for each later exchange |
| History.RowAfterShape | botwithdb.py:100-116 | after N >= 2 updates the row is NULL padding followed by the last min(N-1, 5) of exchanges 2..N |
| History.ShortRunDropsOne | botwithdb.py:102-105 | after 2..5 updates of a new user the row is NULLs followed by exchanges 2..N, while a keep-the-last-five window would still hold all N exchanges, the first included |
| History.ShortRunMissesFirst | botwithdb.py:102-105 | after N = 2..5 updates of a new user, column 6-N (1-based) of the row is NULL, while the same column of the padded last-five window holds the first exchange |
| History.LongRunIsWindow | botwithdb.py:102-105 | after six or more updates of a new user the row equals the window of the last five exchanges |
| History.SecondUpdateLosesFirst | botwithdb.py:98-116 | two updates of a new user leave [NULL, NULL, NULL, NULL, second]; the first exchange survives only if it is the same text as the second |
| History.ExchangeLayout | botwithdb.py:98 | the stored form is "User: ", the user text, the fixed bar-and-"Bot: " separator, then the bot text, each at a fixed offset |
| History.ExchangeAmbiguous | botwithdb.py:98 | two different exchanges can store the same text, so the stored form cannot be parsed back |
| Prompt.KeptSpec | botwithdb.py:192 | the positions the filter keeps are ascending, all name truthy slots, and include every truthy slot |
| Prompt.EntriesByPosition | botwithdb.py:192 | the history lines are exactly one per truthy slot, in slot order, each numbered by its 1-based slot position |
| Prompt.PromptMentionsSlot | botwithdb.py:192 | every truthy slot at position i occurs in the history prompt as the line "Conversation i+1: ..." |
| Prompt.SlotNumberNotRank | botwithdb.py:192 | a row whose only exchange sits in column 5 is shown as "Conversation 5", not "Conversation 1" |
| Prompt.EmptyHistoryPrompt | botwithdb.py:192-193 | with no truthy slot (new user, or all NULL) the prompt is a newline, the persona text and the user text |
| Prompt.NewUserPrompt | botwithdb.py:193 | for a user with no history the prompt sent to the generator is a newline, the bot's persona text and the user text |
| Prompt.FullPrompt | botwithdb.py:193 | the prompt is the history prompt, a newline, the persona text and the user text, so it always ends with the user text |
| Strings.SplitJoin | botwithdb.py:179 | joining arguments that hold no space with single spaces and splitting again gives the arguments back |
| Strings.NatToStringValue | botwithdb.py:192 | the slot number is rendered in decimal exactly: reading the digits back gives the number |
| Strings.NatToStringInjective | botwithdb.py:192 | different slot numbers render as different text |
| Bot.Logged | botwithdb.py:81-86 | `log_message`: the audit log gains exactly the given entries, in order, after the old ones; the history store is untouched |
| Bot.Start | botwithdb.py:131-136 | one bot log entry with the greeting, the greeting as reply, store untouched, no outside call |
| Bot.Help | botwithdb.py:139-144 | one bot log entry with the help text, the help text as reply, store untouched, no outside call |
| Bot.Echo | botwithdb.py:147-153 | the text is logged as the user's then as the bot's and replied unchanged; store untouched |
| Bot.City | botwithdb.py:179 | New York when the command has no arguments |
| Bot.CityRoundTrip | botwithdb.py:179 | with arguments, the city text is their join by single spaces: splitting it on spaces gives back the arguments when none holds a space |
| Bot.FunnyWeather | botwithdb.py:166-188 | the city is looked up first; with no report the reply and the one bot log entry are "Error fetching weather data for <city>." and the generator is not called; with a report the generator is asked once, with "The weather is <description>. Write a funny phrase about this.", and its phrase is logged and replied |
| Bot.Answer | botwithdb.py:201-217 | without arguments nothing changes and nothing is replied or called; otherwise the generator is called once with the prompt built from the history read before the update, the log gains (uid, prompt, user) then (uid, answer, bot), the store gains exactly that exchange, and the answer is the reply |
| Bot.Dispatch | botwithdb.py:229-235 | for any message the log only grows, rows stay five wide, other users' rows are untouched, and only /okayayuss with arguments writes the store |
| Bot.RunInvariants | botwithdb.py:229-235 | over any sequence of messages the log is append-only, rows stay five wide, and a user who sent nothing keeps their row |
| Bot.AnswersReplay | botwithdb.py:201-217 | a run of /okayayuss commands from one user stores what update_chat_history with each prompt and its answer stores; each stored prompt is the command's arguments joined by spaces |
| Bot.AnswerStep | botwithdb.py:201-217 | an /okayayuss command at the end of a run adds one turn, the arguments joined by spaces, and the store after it is update_chat_history applied to the store before it |
| Bot.AnswerScenario | botwithdb.py:201-217 | six or more /okayayuss commands from a new user leave the last five exchanges; two to five leave NULLs followed by every exchange except the first |

## Left out

- SQLite mechanics: connections, commits, the `CREATE TABLE` statements and the `timestamp` column of `chats`. The table is a map and the log a sequence.
- Telegram transport, async plumbing and `main`'s polling loop. The model is sequential, so the read-modify-write race between concurrently handled messages is not modelled.
- The HTTP weather lookup. It is an oracle from city to an optional report. Its `None` stands for a non-200 answer and also for an empty JSON object, which Python treats as false. The code never imports `requests`, so the real lookup would raise; that exception is not modelled.
- The Gemini client, its generation settings (a float temperature and others) and its safety settings. Generation is an oracle from prompt to text. Its failures are not modelled.
- A report that lacks `weather[0].description` raises `KeyError` in the code. The model's report always carries a description.
- Logging configuration and loading `.env` credentials.
- History.Update: a stored row that is not five wide cannot be read back from the table. The model keeps the code's `len >= 5` test for such rows but states no promise about them, since the real `UPDATE` would fail on the wrong number of values.
