# PcPartTracker monitoring core, modelled in Dafny

PcPartTracker is a batch job. On each run it checks every product page in its
catalog and records each product's price history. It posts a chat
notification when a product comes back in stock at or below its target price.
This project models the three pieces of `tracker.py` that contain logic:

- **The monitoring pass** (`main`, lines 49-67). Entries whose site is not
  `"amazon"` are skipped. For every other entry, `setdefault` creates the
  product's record `{in_stock: False, prices: []}` the first time its name is
  seen. A truthy price is appended with the current date, and the history is
  cut to its 50 most recent samples. A notification fires only on a rising
  edge: the product is in stock now, the price is truthy and within
  `max_price`, and the stored flag was false. After that, the stored flag is
  overwritten with the observed one.
- **The recent-history text** of the notification (`send_discord`, lines
  25-29 and 38). It shows the last five samples as `date → £price`, joined by
  newlines. It falls back to `No history yet` when there are none, and it is
  cut to 1024 characters.
- **The price-text clean-up** (`parse_amazon`, line 19). Every `£` is deleted,
  then every `,`.

Modules:

- `Wrappers` (wrappers.dfy): `Option`.
- `History` (history.dfy): `Sample` and `LastN`, the Python slice `s[-n:]`.
- `PriceText` (price_text.dfy): the clean-up.
- `HistoryText` (history_text.dfy): the history text.
- `Tracker` (tracker.dfy): the state machine.

`Tracker.Run` is the loop of `main`, written as a `for` loop over the catalog.
It calls `Tracker.Track` for the body at lines 55-67. Both methods are proved
equal to specification functions: `Step` for one entry, and `RunSpec`, the
left fold of `Step` over the catalog. The lemmas are stated about those
functions.

Inputs and outputs of the model:

- The state document is a `map<string, Item>` keyed by product name, as in
  the source.
- Prices are `real`.
- The observation `(in_stock, price)` that `parse_amazon` returns for each
  entry is an input. So is the clock reading used as the sample's date.
- The model does not post notifications. For each catalog entry it returns
  `Some(Notice)` with the arguments `send_discord` would receive, or `None`.

`tracker.py` has the following behaviours, and the model keeps each of them:

- State is keyed by product name alone (line 55). Two catalog entries with
  the same name share one record.
- `"amazon"` is the only site that is checked (line 50). Every other entry is
  skipped before a record is created for it.
- The stored `in_stock` flag is overwritten with what the page showed
  (line 67), even when the page yielded no price.
- The price clean-up deletes only `£` and `,` (line 19).
- No record ever expires, and notifications go only to the chat webhook.

## Model

| member | source | states |
|---|---|---|
| `PriceText.Delete` | tracker.py:19 | `replace(c, "")` removes every `c`. All other characters keep their counts. Text without `c` comes back unchanged. |
| `PriceText.Clean` | tracker.py:19 | The cleaned price text has no `£` and no `,`. Every other character keeps its number of occurrences. |
| `PriceText.CleanIsFilter` | tracker.py:19 | The two `replace` passes equal one left-to-right filter that keeps every character except `£` and `,`, in order. |
| `PriceText.DeleteAppend` | tracker.py:19 | Deleting a character distributes over concatenation. |
| `PriceText.CleanAppend` | tracker.py:19 | Cleaning works piecewise: `Clean(a + b) == Clean(a) + Clean(b)`. |
| `PriceText.CleanIdempotent` | tracker.py:19 | Cleaning twice is the same as cleaning once. |
| `PriceText.TagText` | tracker.py:18-19 | A missing price tag gives no price text. A present tag gives its text with exactly the `£` and `,` characters removed: the one-pass filter `KeepKept`, so no `£`, no `,`, and every other character in its original order. |
| `History.LastN` | tracker.py:62 | `s[-n:]` is the suffix of `s` of length `min(n, length of s)`. |
| `History.LastNAppend` | tracker.py:62 | Capping after every append keeps exactly what one cap of the whole sequence would keep. |
| `HistoryText.Line` | tracker.py:27 | A history line starts with the sample's date and always contains the arrow. |
| `HistoryText.Lines` | tracker.py:26-28 | One line per sample, in the samples' order. |
| `HistoryText.SplitJoin` | tracker.py:26 | Splitting the joined text at newlines gives back the lines exactly, when no line contains a newline. |
| `HistoryText.Join` | tracker.py:26 | Joining no lines gives the empty text. Otherwise the joined text begins with the first line and ends with the last. |
| `HistoryText.Text` | tracker.py:25-29 | The joined lines of `history[-5:]`, or `No history yet` when the join is empty (the `or`). The text is `No history yet` if and only if the history is empty. |
| `HistoryText.TextEndsWithLatest` | tracker.py:25-29 | A non-empty history's text ends with the line of its latest sample. |
| `HistoryText.TextLines` | tracker.py:25-29 | For a non-empty history whose lines contain no newline, the text is exactly the lines of the last five samples, in order, so at most five lines. |
| `HistoryText.ShowsLatest` | tracker.py:25-38 | For a non-empty history whose last sample is `latest`, the text is not the placeholder and ends with `latest`'s line. When the text fits in 1024 characters, the field ends with that line too. |
| `HistoryText.Field` | tracker.py:38 | The field is the prefix of the text of length `min(1024, length of the text)`. So it is at most 1024 characters, and it is the whole text when the text fits. |
| `Tracker.Truthy` | tracker.py:57 | No contract. It is the definition of the price test: `None` and `0.0` are falsy, every other price is truthy. `Record`, `Notifies` and the lemmas are stated with it. |
| `Tracker.Stored` | tracker.py:55 | No contract. It is the definition of the record `setdefault` yields: the stored record, or `Fresh` (out of stock, empty history) for a new name. `Step`'s contract is stated with it. |
| `Tracker.Record` | tracker.py:57-62 | No price or a zero price leaves the history unchanged. A truthy price gives the last `min(50, 1 + length of old)` samples of `old + [new sample]`, ending with the new sample. A history within the cap stays within it. |
| `Tracker.Notifies` | tracker.py:64 | No contract. It is the definition of the notify condition: in stock, truthy price, price within target, stored flag false. `Step`, `RepeatedFires` and `PriceGate` are stated with it. |
| `Tracker.Step` | tracker.py:50-67 | A non-amazon entry changes nothing and sends nothing. Otherwise: the stored flag becomes the observed one; the history is `Record` of the stored one; a notice is sent if and only if the product is in stock, the price is truthy and within target, and the flag stored before was false. The notice carries the updated history. A product not yet stored fires on its first in-stock sighting at a good price. A price above target never fires, and neither does an entry already stored as in stock. |
| `Tracker.StepFrame` | tracker.py:50-55 | A checked entry adds only its own name to the state. A skipped entry adds nothing. Every other record is unchanged. |
| `Tracker.RunSpec` | tracker.py:49-67 | The pass yields one notification slot per catalog entry. |
| `Tracker.Track` | tracker.py:55-67 | The imperative body (`setdefault`, append, `[-50:]`, notify test, flag update) computes exactly `Step`. |
| `Tracker.Run` | tracker.py:49-67 | The `for` loop over the catalog computes exactly `RunSpec`. If every stored history was within the cap before the pass, every history is within it afterwards. |
| `Tracker.RunKeepsCap` | tracker.py:57-62 | A pass preserves "every history has at most 50 samples". |
| `Tracker.RunFrame` | tracker.py:49-55 | After a pass, the state's names are the old names plus the names of the checked entries. Records under any other name are unchanged. |
| `Tracker.RunSpecAppend` | tracker.py:49-69 | Two passes in a row, over catalogs `a` then `b`, equal one pass over `a + b`. The second starts from the state the first saves, and the notices are concatenated in order. With `RunFires`, this describes consecutive runs of a catalog of many products. |
| `Tracker.LastFlag` | tracker.py:55-67 | No contract. It is the definition of the flag the stored record of a name holds after some entries: the flag seen by the last checked entry of that name, or the previously stored flag. `RunStoredFlag` and `RunFires` are stated with it. |
| `Tracker.RunStoredFlag` | tracker.py:49-67 | For any catalog, with any mix of products and sites, the stored flag of every name after a pass is `LastFlag`. |
| `Tracker.RunFires` | tracker.py:49-67 | In any catalog, entry `k` notifies if and only if it is an amazon entry and `Notifies` holds on the flag seen by the last earlier check of the same name (or the stored flag). Entries of other products in between make no difference. |
| `Tracker.LastFlagSince` | tracker.py:55-67 | If entry `j` is a check of a name and no later entry before position `m` checks that name, the flag for that name at `m` is the one seen at `j`. |
| `Tracker.NoRefireAcrossCatalog` | tracker.py:64-67 | In a multi-product catalog, a product seen in stock is not announced by its next check, whatever entries lie between. |
| `Tracker.RunSentAt` | tracker.py:49-67 | Entry `k`'s notification is the one its own step sends, from the state the earlier entries left. |
| `Tracker.RepeatedInStock` | tracker.py:67 | After one product is checked repeatedly, its stored flag is the flag of the last check, or the old flag when there was no check. |
| `Tracker.RepeatedHistory` | tracker.py:57-62 | After one product is checked repeatedly, its history is unchanged if no check saw a truthy price. Otherwise it is the 50 most recent of the old and new samples, in chronological order. |
| `Tracker.RetainedStep` | tracker.py:57-62 | `Record(Retained(past, added), price, date) == Retained(past, added + s)`, where `s` is the check's sample when the price is truthy and nothing otherwise. So recording checks one by one equals capping `past` plus all new samples once. |
| `Tracker.RepeatedFires` | tracker.py:64-67 | Over repeated checks of one product, check `k` fires if and only if it is in stock at a truthy price within target and the previous check saw the product out of stock. The stored flag plays that role for the first check. |
| `Tracker.NoRefireWhileInStock` | tracker.py:64-67 | Staying in stock never fires again, even when the price drops. |
| `Tracker.StaysInStockSilent` | tracker.py:64-67 | A product stored as in stock and seen in stock on every check never fires. |
| `Tracker.FiresOnlyOnRisingEdge` | tracker.py:64-67 | Every notification is preceded by an out-of-stock observation, or by an out-of-stock stored flag for the first check. |
| `Tracker.PriceGate` | tracker.py:64 | A truthy price above target never fires, whatever was stored. |
| `Tracker.RisingEdgeExample` | tracker.py:55-67 | From no record, the checks out, in ≤ target, in ≤ target, out, in ≤ target fire at the 2nd and 5th check only. |
| `Tracker.NoticeShowsCurrentSample` | tracker.py:57-65 | For the notice `Step` sends, the history it carries already holds the reported price. Its text is not the placeholder and ends with the line of that price at the check's date. When the text fits, the field the message shows ends with that line too. |
| `Tracker.StepNoticeLast` | tracker.py:57-65 | The history a sent notice carries is non-empty, and its last sample is the reported price at the check's date. |
| `Tracker.EndToEndExample` | tracker.py:55-67 | Target 100, stored out of stock, seen in stock at 95: one notice at 95 carrying the history plus the new sample dated at the check; the stored record becomes in stock with that history. |

## Left out

- Fetching pages (`fetch`, the random User-Agent read from `user_agents.txt`, the 15-second timeout) is network and file I/O. `Run` takes each entry's observation as an input instead.
- HTML extraction with BeautifulSoup (`select_one`, `find`) is a foreign library. Its result is the observation `(in_stock, price)`.
- `float(...)` conversion of the cleaned price text is not modelled. It is floating point, and it raises `ValueError` on text that is not a number, which aborts the whole run. Prices are exact `real`s, so NaN, infinities and rounding are not modelled, and `-0.0` is not a second falsy value.
- How a float is printed in f-strings is not modelled. It is the uninterpreted `render` parameter of the history text.
- The rest of the Discord embed (title, link, colour, current and target price fields, timestamp) and the HTTP POST are outbound I/O. Only the history field is modelled.
- Loading and saving `products.json` and `state.json` is persistence. `Run` takes the loaded state and returns the state to save. Malformed JSON and missing keys, which raise in the source, are not modelled.
- `datetime.utcnow()` is clock access. The date string of each sample is an input, one per catalog entry.
- `Tracker.Track` reads the record that `setdefault` yields into a local value, changes it, and writes it back once. The source changes the dictionary entry in place through an alias. The resulting state is the same, but the aliasing is not modelled.
- Exceptions raised mid-run end the process before `state.json` is written. The model has no crash path.
