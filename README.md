# aws-ssm-selector, modelled in Dafny

The repository is a pair of terminal helpers for picking an EC2 instance and
opening an SSM session on it. This project models two parts of it:

- **The filterable two-panel selector** (`src/test.py`, class `FilterableList`).
  It is a session that reacts to key events:
  - `/` starts filtering;
  - Escape cancels filtering or ends the session;
  - typing narrows the list, case-insensitively;
  - moving the highlight updates the preview pane;
  - Enter in the list or in the filter box ends the session with an item.

  It is modelled as the class `Selector.FilterableList`. Its fields are the
  script's own: the items, the previews, the filtered list, the filter mode,
  the highlighted item and the preview text. There is one method per event
  handler, plus a `status` field that records whether `exit` was called and
  with what. No event reaches the session after it has exited.
- **The string and record logic of the connect script** (`src/aws_connect.py`):
  - the profile names read from the AWS config with `profile_regex`;
  - the menu label `f'{name:<30s} ({id:<15s})'`, with "NONAME" for untagged
    instances;
  - the instance id read back from a label with `instance_regex`;
  - the six-line instance preview;
  - the profile and instance the run settles on;
  - the highlight colour, with the confirmation for scary profiles;
  - the `describe-instances` argv and the `start-session` command line.

  The preview and the choice of instance take the id pattern as a
  parameter. With `Patterns.IdPattern`, which is `instance_regex` as
  written, they behave as the script does: a label whose id is shorter
  than 15 characters yields no id, and the script fails with
  AttributeError. With `Patterns.PaddedIdPattern`, the corrected pattern
  of the finding below, every label yields its own id when the instance's
  name holds no match of the pattern. A name that holds one, such as
  "web (old)", hides the id from both patterns: the label reads the name's
  match instead (`AwsConnect.NameMatchWins`).

  These are modules `Patterns` (hand-written matchers for the two regular
  expressions) and `AwsConnect`. Instances are a datatype and
  `Reservations` is a sequence of sequences of instances. The loops of the
  script (profile extraction, the tag loop, label building, the preview
  search) are methods proved against the functions that specify them.

`Common` and `Text` hold the shared vocabulary:
- optional values, subsequences and `list.index`;
- ASCII lower-casing and substring search;
- padding;
- `str.splitlines`, `sep.join`;
- the shell's splitting of a command line into words.

## Model

| member | source | states |
|---|---|---|
| Selector.Matches | src/test.py:98-99 | the filter test: the lowered query occurs in the lowered item; its meaning inside Filter is stated by FilterMembers |
| Selector.Filter | src/test.py:98-99 | the list comprehension over all items, in order; specified by FilterIsSubsequence, FilterMembers, FilterFirst, FilterEmptyIff and FilterAppend |
| Selector.FilterIsSubsequence | src/test.py:99 | the filtered list keeps only items of the full list, in their original order |
| Selector.FilterMembers | src/test.py:98-99 | an item survives filtering exactly when it is in the list and contains the query, ignoring case |
| Selector.FilterEmptyQuery | src/test.py:98-99 | the empty query (the value the filter box starts with) keeps every item |
| Selector.FilterIgnoresQueryCase | src/test.py:98 | lower-casing the query first changes nothing: the query's case does not matter |
| Selector.FilterFirst | src/test.py:99 | the first item that matches is the head of the filtered list, so Enter in the filter box picks the earliest match |
| Selector.FilterAppend | src/test.py:99 | filtering two lists joined is filtering each and joining: every item is kept or dropped on its own, in order |
| Selector.FilterEmptyIff | src/test.py:99 | the filtered list is empty exactly when no item matches |
| Selector.LookupPreview | src/test.py:138-142 | the preview is the one at the item's first position in the full list, or IndexError exactly when that position has no preview; a missing item gives the placeholder path (ValueError) |
| Selector.LookupTotal | src/test.py:138-140 | with a preview for every item, an item gets the preview at its first position and the lookup never raises |
| Selector.FilterableList.ShownWithinItems | src/test.py:138-142 | the session invariant keeps the shown list no longer than the full list and every shown entry, the highlight included, an item of it, so `all_items.index` never raises ValueError for an entry |
| Selector.FilterableList.constructor | src/test.py:54-66 | the session starts unfiltered and not in filter mode, with nothing highlighted and the initial preview text |
| Selector.FilterableList.Exit | src/test.py:89 | `self.exit(result)` ends the session with that result and changes nothing else |
| Selector.FilterableList.StartFilter | src/test.py:75-79 | `/` enters filter mode and changes nothing else the model tracks |
| Selector.FilterableList.UpdateList | src/test.py:102-106 | rebuilding the list clears the highlight and keeps the invariant |
| Selector.FilterableList.CancelFilter | src/test.py:81-89 | in filter mode, Escape restores the full list and clears the highlight; otherwise it ends the session with no selection |
| Selector.FilterableList.SelectItem | src/test.py:91-94 | app-level Enter ends the session with the highlight exactly when one is set and not empty |
| Selector.FilterableList.OnInputChanged | src/test.py:97-100 | the shown list becomes the case-insensitive filter of the full list, and the highlight is cleared |
| Selector.FilterableList.OnListViewHighlighted | src/test.py:117-142 | no entry: highlight cleared and placeholder shown; an entry: it is highlighted and its preview shown; a missing preview crashes the session; the ValueError path is never taken for an entry |
| Selector.FilterableList.OnListViewSelected | src/test.py:145-163 | selecting an entry ends the session with it; without an entry, the non-empty highlight is used, or nothing happens |
| Selector.FilterableList.OnInputSubmitted | src/test.py:166-178 | Enter in the filter box ends the session with the first filtered item, or acts as Escape when nothing matches |
| Selector.StartThenCancel | src/test.py:75-89 | `/` then Escape returns to browsing the full list without ending the session |
| Selector.SubmitWithoutMatch | src/test.py:166-174 | a query matching nothing, then Enter, selects nothing and returns to the full list |
| Selector.SubmitFirstMatch | src/test.py:166-178 | a query, then Enter, selects the earliest matching item |
| Selector.WebExample | src/test.py:97-178 | "web" over web-a, web-b, db-1 shows web-a and web-b, and Enter selects web-a |
| Selector.HighlightThenEnter | src/test.py:117-163 | highlighting a non-empty entry and pressing Enter selects that entry |
| Selector.EscapeWhileBrowsing | src/test.py:81-89 | Escape outside filter mode ends the session with no selection, whatever is highlighted |
| Patterns.MatchAt | src/aws_connect.py:27-28 | the regex's attempt at one position: opener, greedy class run, spaces when padded, closer; its meaning is stated by MatchAtSound |
| Patterns.MatchAtSound | src/aws_connect.py:27-28 | a match captures a non-empty run of the pattern's character class, with the opener right before it and the closer right after it (after spaces, in the padded pattern only) |
| Patterns.Search | src/aws_connect.py:27-28 | `re.search(...).group(1)`, or None for no match; specified by SearchSpec |
| Patterns.FirstMatch | src/aws_connect.py:27-28 | the leftmost matching position at or after a start, or none when no position matches |
| Patterns.SearchSpec | src/aws_connect.py:27-28 | `re.search` finds nothing exactly when no position matches, and otherwise returns the leftmost match's group |
| Patterns.ProfileSearchSound | src/aws_connect.py:28 | a captured profile is a non-empty `[A-Za-z0-9-]` name whose whole header `[profile NAME]` is in the line |
| Patterns.ProfileHeaderRoundTrip | src/aws_connect.py:28 | a line starting with `[profile NAME]` yields NAME, whatever follows |
| Patterns.ProfileHeaderFound | src/aws_connect.py:28 | a line holding a `[profile NAME]` header anywhere yields a profile |
| Patterns.MatchAtExtended | src/aws_connect.py:27-28 | a match found in a text is found at the same place in any longer text that starts with it |
| Patterns.ShortLineHasNoProfile | src/aws_connect.py:28 | a line shorter than `[profile ` yields nothing |
| AwsConnect.FlattenAppend | src/aws_connect.py:186-187 | instances are visited reservation by reservation: flattening distributes over concatenation |
| AwsConnect.ProfileNames | src/aws_connect.py:122-129 | at most one profile per line, each a valid profile name |
| AwsConnect.ExtractProfiles | src/aws_connect.py:122-129 | the profile loop collects the first `[profile NAME]` of each line, in line order; the hidden-environment filter never removes one |
| AwsConnect.ProfileNamesAppend | src/aws_connect.py:125-129 | profiles keep the order of their lines |
| AwsConnect.NoProfileLines | src/aws_connect.py:125-129 | no profile is found exactly when no line's search succeeds; with ProfileHeaderFound, a line holding a header anywhere offers a profile |
| AwsConnect.ProfileFromHeader | src/aws_connect.py:122-129 | the config `[profile test]` offers the profile `test` |
| AwsConnect.NoProfileFromBareSection | src/aws_connect.py:122-129 | the config `[test]` offers no profile |
| AwsConnect.ResolveProfile | src/aws_connect.py:116-150 | the profile the run settles on, or how it ends (no config, menu dismissed, IndexError); specified by EnvironmentProfileWins and NonInteractiveProfile |
| AwsConnect.EnvironmentProfileWins | src/aws_connect.py:116-150 | a non-empty AWS_PROFILE is used as is, whatever the config says |
| AwsConnect.NonInteractiveProfile | src/aws_connect.py:116-148 | without AWS_PROFILE and not interactive, the first config profile is used; a config without profiles ends in IndexError |
| AwsConnect.HighlightStyle | src/aws_connect.py:152-161 | "production" needs a confirmation: confirmed gives bg_red, declined ends the run; bg_green exactly for every other profile |
| AwsConnect.LastNameTag | src/aws_connect.py:190-192 | the position of the last tag whose key is Name, or none when there is no such tag |
| AwsConnect.NameTagValue | src/aws_connect.py:190-192 | the value of the last Name tag, or "" when there is none; LastNameTag characterises the position |
| AwsConnect.DisplayName | src/aws_connect.py:188-198 | the name shown for an instance: the Name tag's value, or "NONAME" when it is missing or empty; ReadName is proved equal to it |
| AwsConnect.ReadName | src/aws_connect.py:188-198 | the tag loop ends with the last Name tag's value, or "NONAME" when it is missing or empty; never empty |
| AwsConnect.BuildLabels | src/aws_connect.py:183-200 | one label per instance, reservation by reservation, in order |
| AwsConnect.Label | src/aws_connect.py:200 | `f'{name:<30s} ({id:<15s})'`; its layout is stated by LabelLayout |
| AwsConnect.InstanceLabel | src/aws_connect.py:199-200 | the label of one instance, from its display name and its id |
| AwsConnect.LabelsOf | src/aws_connect.py:183-200 | the menu entries, one label per instance in order; BuildLabels is proved equal to it |
| AwsConnect.LabelLayout | src/aws_connect.py:200 | a label is the uncut name, spaces to column 30 at least, " (", the id, its padding to 15 characters, then ")" |
| AwsConnect.InstanceIdAsWritten | src/aws_connect.py:216-221 | the id read back with `instance_regex` as written; specified by LabelIdRoundTripAsWritten and ShortIdNotFoundAsWritten |
| AwsConnect.InstanceIdOf | src/aws_connect.py:27 | the id read back with the corrected pattern, which allows padding before ")"; specified by LabelIdRoundTrip |
| AwsConnect.LabelIdRoundTrip | src/aws_connect.py:200-221 | reading the id back from a label, with padding allowed before ")", gives the instance's id when the name holds no match of the pattern |
| AwsConnect.LabelIdRoundTripAsWritten | src/aws_connect.py:200-221 | when the name holds no match, the pattern as written reads the id back if the id fills its 15 columns |
| AwsConnect.ShortIdNotFoundAsWritten | src/aws_connect.py:200-221 | with the pattern as written, an id shorter than 15 characters is never found in its own label |
| AwsConnect.NameMatchWins | src/aws_connect.py:200-221 | when the name holds a match of either pattern, reading the label gives the name's match, not the id |
| AwsConnect.NameMatchExample | src/aws_connect.py:200-221 | the label of "web (old)" / "i-0123456789abcdef0" reads "old" with both patterns |
| AwsConnect.ShortIdExample | src/aws_connect.py:200-221 | the label of "web" / "i-1234abcd" holds no match as written, and the padded pattern reads "i-1234abcd" |
| AwsConnect.NoParenNoId | src/aws_connect.py:27 | text without "(" holds no instance id |
| AwsConnect.PaddedAgreesOnFullIds | src/aws_connect.py:27 | where the pattern as written finds the id, the padded pattern finds the same one |
| AwsConnect.FirstWithId | src/aws_connect.py:61-64 | the position of the first instance with the id, or none when no instance has it |
| AwsConnect.DetailLines | src/aws_connect.py:65-75 | the six preview lines, or None where a running instance has no private IP (KeyError); PreviewTextLines states that they survive join and split |
| AwsConnect.PreviewOf | src/aws_connect.py:56-76 | what `preview` returns for a selection, reading the id with the given pattern; Preview is proved equal to it |
| AwsConnect.Preview | src/aws_connect.py:56-76 | the preview loop returns the details of the first instance with the selected id, None when there is none, and fails when the selection holds no id (AttributeError) or a running instance has no private IP; with `IdPattern` this is the script as written |
| AwsConnect.PreviewTextLines | src/aws_connect.py:65-76 | the preview text splits back into the six detail lines |
| AwsConnect.PreviewOfOwnLabel | src/aws_connect.py:44-76 | for an instance whose name holds no match of the pattern and which is the first with its id, the preview of its own label shows its details: with the corrected pattern for every id, and with the pattern as written when the id has 15 characters or more |
| AwsConnect.ShortIdPreviewAsWritten | src/aws_connect.py:56-57 | as written, previewing a label whose name holds no match and whose id is shorter than 15 characters fails with AttributeError |
| AwsConnect.SelectTarget | src/aws_connect.py:203-221 | the instance the run connects to, or how it ends (menu dismissed, IndexError, AttributeError), reading the id with the given pattern |
| AwsConnect.NonInteractiveTarget | src/aws_connect.py:203-221 | not interactive, the run fails with IndexError when there is no instance, and otherwise connects to the first instance listed when its name holds no match of the pattern (and, as written, its id has 15 characters or more) |
| AwsConnect.NonInteractiveShortIdAsWritten | src/aws_connect.py:215-221 | as written, a first instance whose name holds no match and whose id is shorter than 15 characters ends the non-interactive run in AttributeError |
| AwsConnect.DescribeArgv | src/aws_connect.py:163-172 | the four describe-instances argvs; their shape is stated by DescribeArgvForms |
| AwsConnect.DescribeArgvForms | src/aws_connect.py:163-172 | both forms run `aws ec2 describe-instances`; the profile goes to `aws-vault exec` or to `--profile`; `--region` is added exactly when a region is given |
| AwsConnect.SessionCommand | src/aws_connect.py:223-232 | the four start-session command lines; SessionCommandJoin and SessionCommandWords state what they mean |
| AwsConnect.SessionArgv | src/aws_connect.py:223-232 | the argv each command line is meant to run |
| AwsConnect.SessionCommandJoin | src/aws_connect.py:223-232 | the start-session command line is the intended argv joined with single spaces |
| AwsConnect.SessionCommandWords | src/aws_connect.py:223-232 | with profile, id and region made of shell-literal characters, the command line holds only those and spaces, and the shell splits it into exactly the intended argv |
| AwsConnect.ConfigNamesAreWords | src/aws_connect.py:27-28 | profiles from the config and ids from the labels are shell words: non-empty, shell-literal characters only, no spaces |

## Left out

- I/O is outside the model. The config file, the `describe-instances` output and the environment arrive as parameters. So do `is_executable`, the menus' returns and `click.confirm`, each as a value. Also left out: JSON parsing, `subprocess.run` with `check=True`, `os.system`, `print` and `sys.exit`.
- Profile-loop exceptions: its bare `except:` covers only a failed file read (a `None` config). Nothing else inside that loop can raise in the model.
- Tag-loop exceptions: its bare `except:` covers only the absence of `Tags`. A tag without `Key` or `Value` is not modelled.
- Argument parsing (`parse_args`) is not modelled. The region is an `Option<string>`.
- `get_instances` and the `__main__` blocks of both files are not modelled, since they only do I/O.
- Other repository files are not part of this model: `src/aws-connect.py`, `aws-ssh.py` and the tests under `tests/`.
- The Textual machinery is not modelled: widgets, CSS, focus, `display` and the reactive preview watcher. The preview pane is the string field it would show.
- Selector.FilterableList.OnListViewHighlighted: the event's list item (when present) and its `index`/`item_index` attributes arrive as one optional index into the shown list. So the `or` between them is not modelled: it treats index 0 as missing and falls back to `item_index`. Nor is the fallback to `list_view.index`. The text of the entry is taken to be the shown string itself: `_extract_text_from_listitem` (src/test.py:109-114) and its `str(item_widget)` fallback are not modelled. That fallback is how the real code can reach `except ValueError` at src/test.py:141; in the model that path is never taken.
- Selector.FilterableList.OnListViewSelected: the event arrives the same way, as one optional index.
- Selector.FilterableList.StartFilter: emptying the filter box fires an `Input.Changed` event in Textual. The model leaves that event to a separate `OnInputChanged("")` call. That call leaves the list unchanged when it is already the full list (`FilterEmptyQuery`).
- Lower-casing is ASCII only. Python's Unicode `str.lower` is not modelled.
- Every event handler requires that the session has not exited yet. The app guarantees this, since no event is delivered after `exit`. There is no check for it in the code.
- Some behaviour described for the selector is not in its code, and the model follows the code:
  - Escape leaves the query as it was;
  - there is no highlight movement or clamping logic of its own;
  - a highlighted item without a preview raises an uncaught IndexError, modelled as `Crashed`.
- AwsConnect.SessionCommandWords: holds only for a profile, id and region of shell-literal characters (letters, digits, `-_./:`). AWS_PROFILE (src/aws_connect.py:150) and `--region` reach `/bin/sh` unquoted; what the shell does with quotes, `$`, `;`, `|`, globs, tabs or newlines in them (further commands, expansions, other word splits) is not modelled.
- Instance names that hold a match of the id pattern, such as "web (old)": the label then yields the name's match, not the id (NameMatchWins). `PreviewOf` and `SelectTarget` then go on with "old" as the id, as `preview` and `main` do (`--target old`); no lemma follows that case past the read-back.
- The `print(items[0])` after an unreadable menu choice at src/aws_connect.py:219 is modelled only through its possible IndexError.

## Findings

| source | as written | input that shows it | evidently intended | confidence | as-written member | corrected member |
|---|---|---|---|---|---|---|
| src/aws_connect.py:27 | `instance_regex` `\(([\-a-z0-9]+)\)` allows no space before ")". The label at line 200 pads the id to 15 characters, so an id shorter than 15 is never found, and `match.group(1)` raises AttributeError at lines 57 and 221 | an instance named "web" with id "i-1234abcd" (label `web`, then 28 spaces, then `(i-1234abcd     )`: `{name:<30s}` pads with 27 spaces and the literal " (" adds one more) | tolerate the padding before ")": `\(([\-a-z0-9]+) *\)` reads back the id of every label whose name holds no match of the pattern; the model runs the preview and the instance choice with either pattern | medium (not executed) | AwsConnect.ShortIdNotFoundAsWritten | AwsConnect.LabelIdRoundTrip |
