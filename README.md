# Tunnel command variables and wizard part status, in Dafny

This project models two pieces of the Cloud Foundry Eclipse integration.

**Tunnel command variables** (`ExternalToolUIOptionsHandler`). A service
command for an open Caldecott tunnel refers to `${...}` variables in two
places: its options text and the values of its environment variables.
Before the command runs, the handler resolves every variable named after a
tunnel attribute (`user`, `password`, `url`, `databasename`, `port`)
from the tunnel descriptor. If any variable is still unresolved, it asks
the user through a wizard dialog. Unless the user cancels, it then writes
the option values and the resolved environment values back into the
command. On cancel it returns null.

**Wizard part status** (`PartsWizardPage`). A wizard page made of UI parts
receives a change event from each part. It keeps the status of each part
whose latest report is non-OK. It shows either the event's status or, after an
OK event, the status of some part that still has an error. The page can
finish only when the status it shows is OK.

Files:

- `wrappers.dfy`: the `Option` type, standing for Java's nullable references.
- `decimal.dfy`: Java's `int` to decimal text (`n + ""`), with its round trip.
- `put_sequence.dfy`: a run of `HashMap.put` calls, where the last write wins.
- `tunnel.dfy`: the handler.
  - The pure lookups are functions.
  - The two resolution loops are methods over a `ServiceCommand` object, proved against the `put` sequences they perform.
  - The write-back changes the `EnvironmentVariable` objects in place.
- `wizards.dfy`: the page.
  - It is a class with the `partStatus` map and the `canFinish` flag.
  - `NextPartStatus` and `Tracked` are pure functions that `handleChange` is proved against.

Code outside these two classes becomes a parameter:

- `ServiceCommand.getOptionVariables` and `EnvironmentVariable.getValueVariable` are function-valued constants of the handler.
- The wizard dialog is a `Dialog` function from the options map it is built on to "cancelled" or "confirmed with this map".
- `ServiceCommand.setOptionVariableValues` is recorded as the `optionVariableValues` field of the command.
- The page's `setErrorMessage`, `setMessage` and button refreshes are recorded in the `messages` and `buttonRefreshes` fields.

Completeness is not the same as "no part tracked". A non-OK event from a
null source leaves the map unchanged, possibly empty, yet the page becomes
incomplete (`HandleChange`, `NextPartStatus`).

## Model

| member | source | states |
|---|---|---|
| Tunnel.FindOption | org.cloudfoundry.ide.eclipse.server.ui/src/org/cloudfoundry/ide/eclipse/internal/server/ui/tunnel/ExternalToolUIOptionsHandler.java:41-48 | the result is an option of the list with exactly that name; none means no option in the list has it |
| Tunnel.GetTunnelOption | org.cloudfoundry.ide.eclipse.server.ui/src/org/cloudfoundry/ide/eclipse/internal/server/ui/tunnel/ExternalToolUIOptionsHandler.java:41-48 | a found constant's name equals the given text; nothing is found exactly for null or for a text that is not one of the five names |
| Tunnel.ResolveTunnelVariable | org.cloudfoundry.ide.eclipse.server.ui/src/org/cloudfoundry/ide/eclipse/internal/server/ui/tunnel/ExternalToolUIOptionsHandler.java:122-151 | a null variable resolves to null (the value for each name is given by `ResolveTunnelVariableCases`) |
| Tunnel.ResolveTunnelVariableCases | org.cloudfoundry.ide.eclipse.server.ui/src/org/cloudfoundry/ide/eclipse/internal/server/ui/tunnel/ExternalToolUIOptionsHandler.java:122-151 | user, password, url and databasename give the descriptor's attribute, port gives the port's decimal text, any other name or null gives null |
| Tunnel.ResolvedOnlyForTunnelNames | org.cloudfoundry.ide.eclipse.server.ui/src/org/cloudfoundry/ide/eclipse/internal/server/ui/tunnel/ExternalToolUIOptionsHandler.java:122-151 | a non-null resolution implies the variable is one of the five tunnel names |
| Decimal.IntToString | org.cloudfoundry.ide.eclipse.server.ui/src/org/cloudfoundry/ide/eclipse/internal/server/ui/tunnel/ExternalToolUIOptionsHandler.java:145 | `n + ""` is a minus sign followed by digits, or digits only; it starts with '-' iff n is negative; no leading zeros ("0" is the only text starting with '0', and no '0' follows the sign) |
| Decimal.NatToStringRoundTrip | org.cloudfoundry.ide.eclipse.server.ui/src/org/cloudfoundry/ide/eclipse/internal/server/ui/tunnel/ExternalToolUIOptionsHandler.java:145 | the digits of a natural number denote that number |
| Decimal.IntToStringRoundTrip | org.cloudfoundry.ide.eclipse.server.ui/src/org/cloudfoundry/ide/eclipse/internal/server/ui/tunnel/ExternalToolUIOptionsHandler.java:145 | parsing the text of an int gives the int back |
| Decimal.IntToStringInjective | org.cloudfoundry.ide.eclipse.server.ui/src/org/cloudfoundry/ide/eclipse/internal/server/ui/tunnel/ExternalToolUIOptionsHandler.java:145 | different ports give different texts |
| PutSequence.PutsLookup | org.cloudfoundry.ide.eclipse.server.ui/src/org/cloudfoundry/ide/eclipse/internal/server/ui/tunnel/ExternalToolUIOptionsHandler.java:112 | after a run of puts, a key is present iff it was before or some put carries it; the last put of a key decides its value; other keys are unchanged |
| PutSequence.PutsMeaning | org.cloudfoundry.ide.eclipse.server.ui/src/org/cloudfoundry/ide/eclipse/internal/server/ui/tunnel/ExternalToolUIOptionsHandler.java:165 | the same facts, for all keys and puts at once: carried keys are present, an entry no later entry overrides decides its key's value, uncarried keys keep theirs, and a present key was present before or is carried by some put |
| Tunnel.Get | org.cloudfoundry.ide.eclipse.server.ui/src/org/cloudfoundry/ide/eclipse/internal/server/ui/tunnel/ExternalToolUIOptionsHandler.java:86 | `Map.get`: a non-null result is the stored value; a present key yields its value |
| Tunnel.OptionEntriesAt | org.cloudfoundry.ide.eclipse.server.ui/src/org/cloudfoundry/ide/eclipse/internal/server/ui/tunnel/ExternalToolUIOptionsHandler.java:104-113 | the i-th put of the options pass stores the i-th variable with its own resolution |
| Tunnel.OptionEntriesSnoc | org.cloudfoundry.ide.eclipse.server.ui/src/org/cloudfoundry/ide/eclipse/internal/server/ui/tunnel/ExternalToolUIOptionsHandler.java:104-113 | one loop step of the options pass puts the variable with its resolution and raises the flag iff that resolution is null |
| Tunnel.OptionEntriesResolve | org.cloudfoundry.ide.eclipse.server.ui/src/org/cloudfoundry/ide/eclipse/internal/server/ui/tunnel/ExternalToolUIOptionsHandler.java:104-113 | every referenced variable ends up mapped to its own resolution, wherever and however often it occurs |
| Tunnel.OptionPassMeaning | org.cloudfoundry.ide.eclipse.server.ui/src/org/cloudfoundry/ide/eclipse/internal/server/ui/tunnel/ExternalToolUIOptionsHandler.java:95-120 | after the options pass, each referenced variable is mapped to its resolution, no other key is added, and other keys keep their value |
| Tunnel.OptionSomeUnset | org.cloudfoundry.ide.eclipse.server.ui/src/org/cloudfoundry/ide/eclipse/internal/server/ui/tunnel/ExternalToolUIOptionsHandler.java:104-111 | the pass reports "prompt" iff some referenced variable resolves to null |
| Tunnel.ExternalToolUIOptionsHandler.constructor | org.cloudfoundry.ide.eclipse.server.ui/src/org/cloudfoundry/ide/eclipse/internal/server/ui/tunnel/ExternalToolUIOptionsHandler.java:35-39 | the handler keeps the command and the tunnel descriptor it is given (the dialog shell is not modelled; the two unseen lookups are passed in as well) |
| Tunnel.ExternalToolUIOptionsHandler.ReferencedVariables | org.cloudfoundry.ide.eclipse.server.ui/src/org/cloudfoundry/ide/eclipse/internal/server/ui/tunnel/ExternalToolUIOptionsHandler.java:97-102 | a null options object or a null variable list gives no variables; otherwise the list `getOptionVariables` returns |
| Tunnel.ExternalToolUIOptionsHandler.ResolveTunnelOptions | org.cloudfoundry.ide.eclipse.server.ui/src/org/cloudfoundry/ide/eclipse/internal/server/ui/tunnel/ExternalToolUIOptionsHandler.java:95-120 | null options or a null variable list leave the map unchanged and report no prompt; otherwise the result is the map after the pass's puts, and the flag says whether some put stored null |
| Tunnel.ExternalToolUIOptionsHandler.ResolveEnvironmentVariables | org.cloudfoundry.ide.eclipse.server.ui/src/org/cloudfoundry/ide/eclipse/internal/server/ui/tunnel/ExternalToolUIOptionsHandler.java:153-170 | a null list leaves the map unchanged with no prompt; otherwise the result is the map after putting each variable's name with the resolution of the variable its value refers to, and the flag says whether some put stored null |
| Tunnel.ExternalToolUIOptionsHandler.EnvEntriesAt | org.cloudfoundry.ide.eclipse.server.ui/src/org/cloudfoundry/ide/eclipse/internal/server/ui/tunnel/ExternalToolUIOptionsHandler.java:157-166 | the i-th put of the environment pass stores the i-th variable's name with the resolution of its value |
| Tunnel.ExternalToolUIOptionsHandler.EnvValuesAt | org.cloudfoundry.ide.eclipse.server.ui/src/org/cloudfoundry/ide/eclipse/internal/server/ui/tunnel/ExternalToolUIOptionsHandler.java:157-166 | the i-th entry of the snapshot the pass reads is the i-th environment variable object's current name and value |
| Tunnel.ExternalToolUIOptionsHandler.EnvEntriesSnoc | org.cloudfoundry.ide.eclipse.server.ui/src/org/cloudfoundry/ide/eclipse/internal/server/ui/tunnel/ExternalToolUIOptionsHandler.java:157-166 | one loop step of the environment pass puts the name with its resolution and raises the flag iff that resolution is null |
| Tunnel.ExternalToolUIOptionsHandler.EnvironmentPassMeaning | org.cloudfoundry.ide.eclipse.server.ui/src/org/cloudfoundry/ide/eclipse/internal/server/ui/tunnel/ExternalToolUIOptionsHandler.java:153-170 | every name becomes a key; the last variable of a name decides its value; keys no variable carries keep their value; no key other than the map's own keys and the variable names is present |
| Tunnel.ExternalToolUIOptionsHandler.EnvSomeUnset | org.cloudfoundry.ide.eclipse.server.ui/src/org/cloudfoundry/ide/eclipse/internal/server/ui/tunnel/ExternalToolUIOptionsHandler.java:160-164 | the environment pass reports "prompt" iff some value resolves to null |
| Tunnel.PromptForUnsetValues | org.cloudfoundry.ide.eclipse.server.ui/src/org/cloudfoundry/ide/eclipse/internal/server/ui/tunnel/ExternalToolUIOptionsHandler.java:178-197 | without a non-empty map the options map is returned as given; otherwise a cancelled dialog gives null and a confirmed one gives the wizard's map |
| Tunnel.PromptIgnoresEnvironmentValues | org.cloudfoundry.ide.eclipse.server.ui/src/org/cloudfoundry/ide/eclipse/internal/server/ui/tunnel/ExternalToolUIOptionsHandler.java:181-187 | the environment map only decides whether the dialog opens; it never contributes a value |
| Tunnel.UnresolvedOpensDialog | org.cloudfoundry.ide.eclipse.server.ui/src/org/cloudfoundry/ide/eclipse/internal/server/ui/tunnel/ExternalToolUIOptionsHandler.java:63-70 | if either pass left a value unresolved, the maps passed to the prompt are not both empty, so the dialog opens |
| Tunnel.ExternalToolUIOptionsHandler.FinalOptionsCases | org.cloudfoundry.ide.eclipse.server.ui/src/org/cloudfoundry/ide/eclipse/internal/server/ui/tunnel/ExternalToolUIOptionsHandler.java:63-77 | with nothing unresolved the written options are the resolved map; otherwise the dialog opens and its answer decides: cancel gives null, confirm gives the wizard's map |
| Tunnel.ExternalToolUIOptionsHandler.StoreValues | org.cloudfoundry.ide.eclipse.server.ui/src/org/cloudfoundry/ide/eclipse/internal/server/ui/tunnel/ExternalToolUIOptionsHandler.java:80-91 | the command gets the option values; each environment variable whose name maps to a non-null value takes that value, the others keep theirs; the variable list is unchanged, and so are the options on the assumption that `setOptionVariableValues` leaves them alone |
| Tunnel.ExternalToolUIOptionsHandler.PromptForValues | org.cloudfoundry.ide.eclipse.server.ui/src/org/cloudfoundry/ide/eclipse/internal/server/ui/tunnel/ExternalToolUIOptionsHandler.java:59-93 | both passes always run; on cancel the result is null and nothing is written; otherwise the command is returned, its option values are the dialog's answer or the resolved map, and the environment variables take their resolved non-null values |
| Wizards.EventStatus | org.cloudfoundry.ide.eclipse.server.ui/src/org/cloudfoundry/ide/eclipse/internal/server/ui/wizards/PartsWizardPage.java:50-53 | a non-null event status is used as is; the status is OK iff the event's status is null or OK |
| Wizards.UpdatesButtons | org.cloudfoundry.ide.eclipse.server.ui/src/org/cloudfoundry/ide/eclipse/internal/server/ui/wizards/PartsWizardPage.java:72-73 | the buttons are refreshed unless the event is a wizard event that asks not to |
| Wizards.NextPartStatus | org.cloudfoundry.ide.eclipse.server.ui/src/org/cloudfoundry/ide/eclipse/internal/server/ui/wizards/PartsWizardPage.java:58-70 | an OK event removes its source; a non-OK event from a non-null source becomes that source's entry; a non-OK event from a null source changes nothing; no other entry changes; a map without OK statuses stays without them |
| Wizards.NullStatusActsAsOk | org.cloudfoundry.ide.eclipse.server.ui/src/org/cloudfoundry/ide/eclipse/internal/server/ui/wizards/PartsWizardPage.java:50-53 | an event with a null status is handled exactly like one carrying `OK_STATUS` |
| Wizards.IsShownStatus | org.cloudfoundry.ide.eclipse.server.ui/src/org/cloudfoundry/ide/eclipse/internal/server/ui/wizards/PartsWizardPage.java:58-66 | after a non-OK event the shown status is the event's; after an OK event it is the event's when no part is tracked and otherwise the status of some tracked part |
| Wizards.ShownStatusDecidesCompletion | org.cloudfoundry.ide.eclipse.server.ui/src/org/cloudfoundry/ide/eclipse/internal/server/ui/wizards/PartsWizardPage.java:58-75 | whichever remaining entry is picked, the status shown is OK iff the event is OK and no part is still tracked |
| Wizards.Tracked | org.cloudfoundry.ide.eclipse.server.ui/src/org/cloudfoundry/ide/eclipse/internal/server/ui/wizards/PartsWizardPage.java:42 | the statuses tracked after any sequence of events never include an OK status |
| Wizards.TrackedIsLastReport | org.cloudfoundry.ide.eclipse.server.ui/src/org/cloudfoundry/ide/eclipse/internal/server/ui/wizards/PartsWizardPage.java:55-70 | after a sequence of events, a part is tracked iff its latest event was non-OK, and it is tracked with that status |
| Wizards.CompleteAfterEvents | org.cloudfoundry.ide.eclipse.server.ui/src/org/cloudfoundry/ide/eclipse/internal/server/ui/wizards/PartsWizardPage.java:58-75 | after a sequence of events, the page can finish iff the last event is OK and every part's latest report is OK |
| Wizards.Display | org.cloudfoundry.ide.eclipse.server.ui/src/org/cloudfoundry/ide/eclipse/internal/server/ui/wizards/PartsWizardPage.java:106-118 | OK clears the error message; ERROR shows its message, or the fixed unknown-error text when it has none; INFO and WARNING set a message of that type; CANCEL changes nothing |
| Wizards.OnlyOkClearsError | org.cloudfoundry.ide.eclipse.server.ui/src/org/cloudfoundry/ide/eclipse/internal/server/ui/wizards/PartsWizardPage.java:106-118 | a shown error message is cleared only by an OK status; INFO, WARNING and CANCEL keep it and ERROR replaces it |
| Wizards.PartsWizardPage.constructor | org.cloudfoundry.ide.eclipse.server.ui/src/org/cloudfoundry/ide/eclipse/internal/server/ui/wizards/PartsWizardPage.java:40-42 | a new page tracks no part and cannot finish |
| Wizards.PartsWizardPage.IsPageComplete | org.cloudfoundry.ide.eclipse.server.ui/src/org/cloudfoundry/ide/eclipse/internal/server/ui/wizards/PartsWizardPage.java:79-81 | returns the `canFinish` flag |
| Wizards.PartsWizardPage.Update | org.cloudfoundry.ide.eclipse.server.ui/src/org/cloudfoundry/ide/eclipse/internal/server/ui/wizards/PartsWizardPage.java:102-123 | the page can finish iff the status is OK; the messages are those `Display` gives; the buttons are refreshed once when asked; the tracked statuses are unchanged |
| Wizards.PartsWizardPage.HandleChange | org.cloudfoundry.ide.eclipse.server.ui/src/org/cloudfoundry/ide/eclipse/internal/server/ui/wizards/PartsWizardPage.java:49-76 | keeps the no-OK invariant; the map becomes `NextPartStatus` of the old map; the shown status is the event's, or a remaining entry's after an OK event; the page can finish iff the event is OK and no part is tracked; messages and button refresh follow |

## Left out

- The wizard dialog itself (`UnsetOptionsWizard` in a `WizardDialog`) is SWT/JFace UI. It is the `Dialog` parameter, which returns "cancelled" or some map.
- `ServiceCommand.getOptionVariables`, `EnvironmentVariable.getValueVariable` (applied here to a variable's name and value) and `ServiceCommand.setOptionVariableValues` are not part of this model. The first two are uninterpreted function constants, so `${...}` parsing is not modelled. The third is recorded as a field.
- Tunnel.ExternalToolUIOptionsHandler.StoreValues: the model assumes `ServiceCommand.setOptionVariableValues` changes only the recorded option values and leaves the command's options and environment variable list untouched; `PromptForValues` relies on the same assumption on its success path.
- A null element of the environment variable list (Java throws a `NullPointerException` at `var.getVariable()`) and a null tunnel descriptor (a `NullPointerException` in `resolveTunnelVariable`) are ruled out by the model's non-null types.
- Four more Java edge cases are outside the model. A null `event` passed to `handleChange` and a null `serviceCommand` given to the handler's constructor both end in a `NullPointerException`; the model's non-null types rule them out. If the wizard returns null variables after OK, Java returns null as on cancel; `Confirmed` always carries a map, so this case is not modelled. `partStatus` is `protected`, so a subclass could store an OK status; the model has no subclasses and keeps `NoOkStatus` as the page invariant.
- The entries of the options variable list and the names of environment variables are non-null strings. Java would also allow null there (a null key of the environment map is not modelled).
- Tunnel.ExternalToolUIOptionsHandler.ResolveTunnelOptions: it reads the options and the variable list once, as the Java code does. The model assumes `getOptionVariables` has no side effects.
- Tunnel.ResolveTunnelVariable: its own contract states only that null gives null. The value per name is stated by `ResolveTunnelVariableCases`, which keeps the literal comparisons out of the method proofs.
- Tunnel.ExternalToolUIOptionsHandler.PromptForValues: the environment values are stated through the snapshot `CommandEnv` taken on entry. Aliasing between a command's environment variables is allowed: the write-back agrees with the Java loop, because equal names get equal values.
- Tunnel.GetTunnelOption: a search over `TunnelOptions.values()`, written as a recursive function because `resolveTunnelVariable`, which the specifications use, calls it.
- Wizards.PartsWizardPage.HandleChange: the HashMap iteration order that picks the remaining status to show is "some entry of the map". No order is fixed.
- `UIPart` keys compare by identity. Overridden `equals`/`hashCode` are not modelled.
- `Status.OK_STATUS`: only its severity matters to the page. Its plug-in id, code and exception are not modelled.
- `getWizard().getContainer().updateButtons()` is counted in `buttonRefreshes`. The wizard container itself is not modelled.
- `setVisible` and `performWhenPageVisible` are widget visibility hooks with no bookkeeping, so they are left out.
- `CloudFoundryApplicationWizard` is left out. It only delegates to a pluggable wizard delegate and to the JFace `Wizard` base class.
