# My-Portable-Apps connectivity core in Dafny

My-Portable-Apps is a small Windows tool. It keeps a laptop on a known Wi-Fi network with working Internet, and optionally behind the Psiphon VPN. This project models its connectivity-reconciliation core and proves properties of the model:

- **the network manager** (`Network`): the selected SSID and password, and the last scan of visible networks. It also covers the readers of `netsh`/`tasklist` output and the act-then-re-check operations: connect, disconnect, start Psiphon and stop Psiphon. Each of these short-circuits when the system is already in the target state. Auto-selection of a stored profile is part of it too.
- **the WLAN profile document** (`WlanProfile`) that the manager imports for a network without a saved profile. It is a WPA2-Personal (AES) profile in Microsoft's WLAN_profile schema.
- **the controller** (`Controller`):
  - the one-shot reconciliation run: Wi-Fi, then Internet, then VPN, returning at the first step that fails;
  - the status labels, with their confirmation-gated corrective actions;
  - the auto-configuration timer;
  - the VPN labels fed by the monitor;
  - saving a profile typed in by the user;
  - the Wi-Fi and VPN resets.
- **the Psiphon monitor** (`PsiphonMonitor`):
  - the process check and the tunnel check over a process snapshot;
  - the overall state `established = ui && tunnel && active`;
  - transition logging;
  - the monitoring loop and its stop flag.
- **the profile store** (`WifiProfiles`): the `profiles` table with `ssid` as its primary key. It covers:
  - batch classification into new, duplicate and unchanged;
  - inserts;
  - replace-or-skip resolution of duplicates;
  - lookup and delete.
- **the duplicate dialog's choice map** (`DuplicateProfiles`), **the log list model** (`LogModel`) and **the timed question dialog** (`MessageBox`), whose countdown defaults to "Yes".

Everything outside the program is modelled as an oracle:

- **The host** (`Os.Host`): every command (`netsh`, `tasklist`, `taskkill`, launching Psiphon, the HTTP probe) goes to it. Its answer is an arbitrary function of the command and of every exchange before it. The host records each exchange in `trace`, so contracts state which commands an operation issues, in what order, and what it concluded from the replies. Settle delays (`time.sleep`) are no-ops.
- **The user**: answers to questions come from a function of the questions asked before. They are delivered as timer ticks and button presses to the modelled dialog.
- **Process snapshots**: handed to the monitor as values.
- **The clock**: a parameter of the VPN label.

An unset SSID or password (`None` in the program) is the empty string, because every use is a truthiness test.

One might expect an established tunnel to imply an active tunnel, and an active tunnel to imply a running tunnel core. The code guarantees the first implication (`PsiphonMonitor.Sampled`) but not the second. The process check and the tunnel check walk the process table separately, with different name tests. The process check raises on a process without a name and then reports nothing running, while the tunnel check skips that process. `PsiphonMonitor.NamelessProcessHidesTunnel` exhibits an update with an active tunnel and no tunnel core running.

## Model

| member | source | states |
|---|---|---|
| FieldPattern.SpaceRunStops | core/services/network_manager.py:57 | the greedy `\s*` covers only whitespace and stops at the first other character |
| FieldPattern.LineRunStops | core/services/network_manager.py:57 | the greedy `.` run holds no line break and stops at the first one |
| FieldPattern.GroupAt | core/services/network_manager.py:57 | the group of `\s*(.+)` is a non-empty single line that ends inside the text |
| FieldPattern.GroupOfBlank | core/services/network_manager.py:57 | over whitespace only, backtracking makes the group the last character that is not a line break; nothing matches when all are line breaks |
| FieldPattern.MatchAt | core/services/network_manager.py:57 | a match starts with the key and ends after it; its group is a non-empty single line |
| FieldPattern.MatchFieldLine | core/services/network_manager.py:57 | a field line `<key><whitespace>: <value>` followed by a line break matches with the value as the group, ending at the line break |
| FieldPattern.FindAll | core/services/network_manager.py:57 | `re.findall` of `Key\s*:\s*(.+)`: every group is a non-empty single line |
| FieldPattern.FindAllListing | core/services/network_manager.py:57 | over a listing of field lines, the matches are exactly the listed values, in order |
| FieldPattern.Search | core/services/network_manager.py:73 | `re.search(...).group(1)`: when found, a non-empty single line |
| FieldPattern.SearchSkipTo | core/services/network_manager.py:107 | text in which the key does not occur is skipped by the search, up to the key that follows it |
| FieldPattern.SearchFieldLine | core/services/network_manager.py:107 | the search finds the value of the first field line, after text in which the key does not occur |
| Network.ProfileNames | core/services/network_manager.py:45-57 | a profile listing that did not exit with 0 yields no names |
| Network.ProfileNamesListing | core/services/network_manager.py:57 | a profile listing yields its profile names in order, as captured, trailing whitespace included |
| Network.PasswordOf | core/services/network_manager.py:72-81 | a key lookup that raised gives "Error" |
| Network.PasswordOfListing | core/services/network_manager.py:72-75 | the password is the `Key Content` value without surrounding whitespace, after any text in which the key does not occur |
| Network.PasswordOfNoKey | core/services/network_manager.py:72-74 | a key listing without `Key Content` gives "Not Available" |
| Network.CurrentSsidOf | core/services/network_manager.py:107-120 | the current SSID is a single line without surrounding whitespace, "" when the command failed |
| Network.WifiStatusOf | core/services/network_manager.py:146-166 | connected iff the command succeeded and its output contains the SSID; the message is "Connected to ...", "Not Connected" or "Error" accordingly |
| Network.InterfacesListing | core/services/network_manager.py:107-111 | the current SSID is the stripped first `SSID` field, after any text in which `SSID` does not occur, and the status test finds that SSID connected |
| Network.InterfacesAfterState | core/services/network_manager.py:107-111 | a `State` line before the `SSID` line does not hide it: the current SSID is still read |
| Network.StatusBySubstring | core/services/network_manager.py:155 | the status test is a substring test: connected to `name + more` counts as connected to `name` |
| Network.NetworkNames | core/services/network_manager.py:181-185 | at most one name per line |
| Network.NamesWithoutColon | core/services/network_manager.py:182 | a name is read from between two ':', so none holds a ':' |
| Network.AvailableOf | core/services/network_manager.py:175-195 | empty when the scan failed or printed nothing; no name holds a ':' |
| Network.NetworkLineRead | core/services/network_manager.py:181-185 | an `SSID n : name` line is kept (it has "SSID", not "BSSID") and yields `name` stripped |
| Network.NetworkNamesSkip | core/services/network_manager.py:184 | lines without "SSID" contribute nothing |
| Network.NetworkNamesListing | core/services/network_manager.py:181-185 | naming lines after a header give their names, in order |
| Network.AvailableListing | core/services/network_manager.py:175-185 | a whole scan output joined by line breaks gives exactly the visible names, in order |
| Network.ScanWithoutColon | core/services/network_manager.py:181-195 | one naming line without ':' makes the whole scan fail (the list becomes empty) |
| Network.PsiphonListedAnyCase | core/services/network_manager.py:334 | the task list is searched in lower case: any capitalisation of the image name is found |
| Network.AutoSelect | core/services/network_manager.py:215-220 | the chosen profile is stored and visible; none is chosen iff no stored SSID is visible |
| Network.AutoSelectFirst | core/services/network_manager.py:215-220 | the chosen profile is the first visible one in store order |
| Network.NetworkManager.constructor | core/services/network_manager.py:18-25 | no SSID, no password, no visible networks |
| Network.NetworkManager.GetWifiPasswords | core/services/network_manager.py:41-84 | one profile listing, then one key lookup per listed name in order; the result pairs each name with the password read from its own lookup |
| Network.NetworkManager.GetCurrentWifi | core/services/network_manager.py:97-120 | one interfaces listing; the SSID read from it, "" when none |
| Network.NetworkManager.SetWifiCredentials | core/services/network_manager.py:122-131 | both fields set, the scan untouched |
| Network.NetworkManager.GetWifiStatus | core/services/network_manager.py:142-166 | without an SSID: (false, "Wi-Fi not selected") and no command; otherwise one interfaces listing decides; connected iff the last exchange confirms the SSID |
| Network.NetworkManager.GetAvailableWifi | core/services/network_manager.py:168-195 | one scan; the list is the names read from it, empty on failure, empty output or an unreadable line; the selection is untouched |
| Network.NetworkManager.SelectKnownNetwork | core/services/network_manager.py:210-220 | scans, then selects the SSID and password of the first stored visible profile, or keeps the selection |
| Network.NetworkManager.CreateWifiProfile | core/services/network_manager.py:412-457 | without an SSID or password: false and no command; otherwise one import of the profile document for the selection, succeeding iff it exits with 0 |
| Network.NetworkManager.EnsureProfile | core/services/network_manager.py:226-235 | the profile listing comes first; a profile document for the selection is imported only after a successful listing that does not mention the SSID |
| Network.NetworkManager.AttemptConnection | core/services/network_manager.py:226-253 | profile listing first; a profile for the selection is imported only right after a listing not mentioning the SSID; true iff the last exchange, after the connect command, confirms the SSID |
| Network.NetworkManager.ConnectSelection | core/services/network_manager.py:210-253 | auto-selects when the SSID or password is missing; false after the scan when still no SSID; otherwise the attempt; a complete selection is kept |
| Network.NetworkManager.ConnectWifi | core/services/network_manager.py:205-253 | already connected: true, one status check, nothing else changes; otherwise only Wi-Fi commands and the result is the re-checked status |
| Network.NetworkManager.DisconnectWifi | core/services/network_manager.py:269-291 | no selection or not connected: true after at most the status check; otherwise a disconnect, and the result is that the re-check no longer confirms the SSID; false when the disconnect raised |
| Network.NetworkManager.GetInternetStatus | core/services/network_manager.py:300-316 | one probe; up iff it completed with status 204 |
| Network.NetworkManager.IsPsiphonRunning | core/services/network_manager.py:325-342 | one task list; running iff it succeeded and lists the image in lower case |
| Network.NetworkManager.StartPsiphon | core/services/network_manager.py:351-372 | a task list first; the launch happens only when it did not show Psiphon; true iff the last task list shows it |
| Network.NetworkManager.StopPsiphon | core/services/network_manager.py:381-402 | a task list first; the kill happens only when it showed Psiphon; true iff the last task list no longer shows it |
| WlanProfile.DocumentRoundTrip | core/services/network_manager.py:418-442 | the document reads back as the SSID (in both `<name>` elements) and the password (in `<keyMaterial>`) it was made of |
| WlanProfile.DocumentUnescaped | core/services/network_manager.py:438 | the password is inserted unescaped: one containing '<' does not read back |
| WlanProfile.DocumentSecurity | core/services/network_manager.py:431-432 | the document declares WPA2PSK authentication and AES encryption |
| PsiphonMonitor.CheckPsiphonProcesses | core/services/psiphon_monitor.py:23-42 | a nameless process gives (false, false); otherwise ui iff some lower-cased name contains "psiphon3.exe", tunnel iff some other contains "psiphon-tunnel-core.exe" |
| PsiphonMonitor.CheckTunnelStatus | core/services/psiphon_monitor.py:44-64 | equals the tunnel check over the snapshot |
| PsiphonMonitor.TunnelActiveIff | core/services/psiphon_monitor.py:51-64 | active iff some tunnel core has an ESTABLISHED connection and no tunnel core before it failed other than by access denial or exit |
| PsiphonMonitor.ProcessFlags | core/services/psiphon_monitor.py:23-42 | a flag is raised only when no process lacks a name, and only for a process that is the user interface, or another that is the tunnel core |
| PsiphonMonitor.TransitionOf | core/services/psiphon_monitor.py:83-90 | at most one entry; nothing logged iff the state did not change; "connected" iff the new state is established |
| PsiphonMonitor.Sampled | core/services/psiphon_monitor.py:76-80 | established iff ui, tunnel and active all hold |
| PsiphonMonitor.NamelessProcessHidesTunnel | core/services/psiphon_monitor.py:33-53 | a nameless process and an established tunnel core give (false, false, true, false) |
| PsiphonMonitor.FirstSampleLogs | core/services/psiphon_monitor.py:83-90 | over any series of samples, the first log entry is made at the first sample: "connected" or the initial "not connected" |
| PsiphonMonitor.NeverUpLogsNoConnected | core/services/psiphon_monitor.py:83-85 | a series of states never established never logs "connected" |
| PsiphonMonitor.ConnectedNeedsAll | core/services/psiphon_monitor.py:76-85 | "connected" is logged only if some sample saw the user interface, the tunnel core and an active tunnel together |
| PsiphonMonitor.SteadyStateLogsNothing | core/services/psiphon_monitor.py:83-90 | samples equal to the state last logged log nothing |
| PsiphonMonitor.TransitionsBounded | core/services/psiphon_monitor.py:83-90 | at most one transition per sample |
| PsiphonMonitor.PsiphonMonitor.constructor | core/services/psiphon_monitor.py:17-21 | not monitoring, nothing logged or emitted |
| PsiphonMonitor.PsiphonMonitor.Iterate | core/services/psiphon_monitor.py:74-98 | emits exactly one update of the sample; logs the transition from the last state; the last state becomes the sample's state |
| PsiphonMonitor.PsiphonMonitor.Run | core/services/psiphon_monitor.py:66-104 | starts monitoring with no state; the updates are those of the samples, in order; the log is the transitions of their states |
| PsiphonMonitor.PsiphonMonitor.Stop | core/services/psiphon_monitor.py:106-110 | clears monitoring and changes nothing else |
| WifiProfiles.Find | core/model/wifi_profiles_model.py:75-76 | a found password belongs to a row of the SSID; nothing is found iff no row has the SSID |
| WifiProfiles.FindListed | core/model/wifi_profiles_model.py:186-190 | with the primary key in force, the lookup gives a password iff that row is stored |
| WifiProfiles.Classification | core/model/wifi_profiles_model.py:74-87 | a pair is new iff its SSID is absent, a duplicate iff present with another password, and neither when present with the same one |
| WifiProfiles.InsertAllFind | core/model/wifi_profiles_model.py:89-91 | inserting keeps the primary key, only appends, keeps stored passwords, and stores the first password of a new SSID |
| WifiProfiles.Update | core/model/wifi_profiles_model.py:146 | same rows, same SSIDs |
| WifiProfiles.UpdateFind | core/model/wifi_profiles_model.py:146 | a stored SSID gets the new password, every other lookup is unchanged |
| WifiProfiles.ApplyChoicesFind | core/model/wifi_profiles_model.py:140-156 | a stored SSID on "replace" ends with its last duplicate's password; every other SSID keeps its own |
| WifiProfiles.ChoiceSkipOutside | core/model/wifi_profiles_model.py:141 | an SSID without a row in the dialog defaults to "skip" |
| WifiProfiles.RemoveRows | core/model/wifi_profiles_model.py:203 | a delete drops exactly the rows of that SSID |
| WifiProfiles.RemoveFind | core/model/wifi_profiles_model.py:203-207 | a delete keeps the primary key; the SSID is then absent and every other lookup unchanged |
| WifiProfiles.CollectedDistinct | core/model/wifi_profiles_model.py:62-102 | a batch keeps the primary key whatever the user does with the dialog |
| WifiProfiles.CollectedFindNew | core/model/wifi_profiles_model.py:74-91 | an SSID absent before the batch ends with the password of its first pair |
| WifiProfiles.CollectedFindStored | core/model/wifi_profiles_model.py:74-166 | a stored SSID keeps its password unless the dialog was confirmed with "replace" for it |
| WifiProfiles.WifiProfilesModel.constructor | core/model/wifi_profiles_model.py:17-24 | the store opens on the rows of the database file |
| WifiProfiles.WifiProfilesModel.SaveProfile | core/model/wifi_profiles_model.py:109-120 | succeeds iff connected and the SSID is absent, appending the row; otherwise nothing changes |
| WifiProfiles.WifiProfilesModel.CollectDuplicateProfiles | core/model/wifi_profiles_model.py:62-107 | true iff connected, even when the dialog is cancelled; the rows are those of the batch's classification, inserts and resolution |
| WifiProfiles.WifiProfilesModel.Classify | core/model/wifi_profiles_model.py:74-87 | the new and duplicate pairs, classified against the rows before any insert |
| WifiProfiles.WifiProfilesModel.HandleDuplicateProfiles | core/model/wifi_profiles_model.py:122-166 | no duplicates: true, no change; cancel: false, no change; confirm: true, the choices applied |
| WifiProfiles.WifiProfilesModel.GetAllProfilesDetails | core/model/wifi_profiles_model.py:168-179 | every row with distinct SSIDs; none without a connection |
| WifiProfiles.WifiProfilesModel.GetPassword | core/model/wifi_profiles_model.py:181-196 | the result is `Some(pw)` iff the row `(ssid, pw)` is stored |
| WifiProfiles.WifiProfilesModel.DeleteProfile | core/model/wifi_profiles_model.py:198-213 | true iff connected and the SSID was stored; then only its row is removed |
| DuplicateProfiles.ChoiceOfText | core/view/duplicate_profiles_dialog.py:111-116 | "replace" iff the button text is "Replace", otherwise "skip" |
| DuplicateProfiles.DuplicateProfilesDialog.constructor | core/view/duplicate_profiles_dialog.py:67-100 | one table row per pair, every listed SSID on "replace" |
| DuplicateProfiles.DuplicateProfilesDialog.UpdateChoice | core/view/duplicate_profiles_dialog.py:111-116 | sets the clicked SSID's choice from the button text, every other key unchanged |
| DuplicateProfiles.DuplicateProfilesDialog.GetChoices | core/view/duplicate_profiles_dialog.py:118-125 | every value is "replace" or "skip" |
| DuplicateProfiles.InitialChoicesShape | core/view/duplicate_profiles_dialog.py:69-97 | the keys are the listed SSIDs, as many as the rows iff the SSIDs are distinct, all on "replace" |
| DuplicateProfiles.AfterClicksShape | core/view/duplicate_profiles_dialog.py:97-116 | clicks keep the keys, and every value stays "replace" or "skip" |
| DuplicateProfiles.AfterClicksValue | core/view/duplicate_profiles_dialog.py:98-116 | an SSID's choice is set by the last click on one of its rows |
| LogModel.LogListModel.constructor | core/model/log_model.py:13-16 | both lists empty |
| LogModel.LogListModel.RowCount | core/model/log_model.py:31-33 | one row per message |
| LogModel.LogListModel.AddLog | core/model/log_model.py:35-46 | message and level appended at the ends of their lists, equal lengths kept, one more row |
| LogModel.LogListModel.Clear | core/model/log_model.py:48-53 | both lists emptied |
| LogModel.LogListModel.Data | core/model/log_model.py:18-29 | None iff the index is invalid or out of range; the row's message iff in range with the display role |
| LogModel.LogListModel.AllLogs | core/model/log_model.py:55-59 | "" when there is no message |
| LogModel.JoinEmpty | core/model/log_model.py:55-59 | the joined log is empty iff there is no message or a single empty one |
| LogModel.AllLogsLines | core/model/log_model.py:55-59 | splitting the joined log at line breaks gives back the single-line messages, in order |
| MessageBox.Tick | core/utils/message_box.py:39-47 | time left: one second less; no time left: the timer stops and the answer is "Yes" |
| MessageBox.Accepted | core/utils/message_box.py:49-52 | the timer stops and the answer is "Yes" |
| MessageBox.Rejected | core/utils/message_box.py:54-57 | the timer stops and the answer is "No" |
| MessageBox.TimedQuestionDialog.constructor | core/utils/message_box.py:12-37 | the timer starts, and the constructor's own tick is applied |
| MessageBox.TimedQuestionDialog.UpdateCountdown | core/utils/message_box.py:39-47 | one tick of the countdown; the timer runs iff unanswered |
| MessageBox.TimedQuestionDialog.Accept | core/utils/message_box.py:49-52 | answers "Yes" |
| MessageBox.TimedQuestionDialog.Reject | core/utils/message_box.py:54-57 | answers "No" |
| MessageBox.TimedQuestionDialog.Exec | core/utils/message_box.py:34-57 | the answer after the user's events, the timer answering "Yes" once they run out; a dialog that already answered is shown again and answered by the first button pressed |
| MessageBox.Question | core/utils/message_box.py:128-154 | timed: the timed dialog's answer; untimed: the plain box's first button |
| MessageBox.FeedDone | core/utils/message_box.py:47-57 | an answered dialog keeps its answer whatever follows |
| MessageBox.CountdownOpen | core/utils/message_box.py:36-43 | with T seconds, fewer than T ticks leave the dialog open, counting down from T-1 |
| MessageBox.CountdownExpires | core/utils/message_box.py:36-47 | with T >= 1 seconds, the T-th tick answers "Yes" |
| MessageBox.NoTimeWaitsForButton | core/utils/message_box.py:37-47 | with no time, the constructor's tick already answers "Yes" and stops the timer; the question is then answered by the first button pressed |
| MessageBox.PressNoInTime | core/utils/message_box.py:54-57 | "No" before the time runs out answers "No", whatever follows |
| Controller.VpnStatusText | core/controller/main_controller.py:171-179 | each status text iff its condition, by ui, then tunnel, then active |
| Controller.TunnelingText | core/controller/main_controller.py:182-188 | "Succeed - Active" iff active and established; "Tunneling - In Progress" iff tunnel and not active; "Not Tunneling" otherwise |
| Controller.LabelsAgree | core/controller/main_controller.py:171-188 | for a monitor update, the tunneling label shows success iff the status label shows the clock |
| Controller.Locked | core/controller/main_controller.py:304-306 | auto-configuration is no longer idle |
| Controller.Unlocked | core/controller/main_controller.py:316-318 | auto-configuration is idle |
| Controller.UnlockLocked | core/controller/main_controller.py:304-318 | stopping after starting restores the idle widgets |
| Controller.MainController.constructor | core/controller/main_controller.py:54-62 | the window's default labels, 20-second interval, "use VPN" off, auto-configuration idle |
| Controller.MainController.Ask | core/controller/main_controller.py:146-149 | a timed question: the answer is the timed dialog's on the user's events, and it is recorded |
| Controller.MainController.Notify | core/utils/message_box.py:92-126 | the message is shown after every earlier one; nothing else changes |
| Controller.MainController.SetCurrentWifi | core/controller/main_controller.py:123-131 | one interfaces listing; the connected SSID and its stored non-empty password are selected and shown; otherwise nothing changes |
| Controller.MainController.AdoptNetwork | core/controller/main_controller.py:126-131 | a named SSID with a stored non-empty password becomes the selection and is shown; otherwise nothing changes |
| Controller.MainController.Reconnect | core/services/network_manager.py:205-253 | at least one exchange, only Wi-Fi commands, and a complete selection is kept |
| Controller.MainController.ResetWifi | core/controller/main_controller.py:322-327 | a disconnection, then a connection; only Wi-Fi commands |
| Controller.MainController.ResetVpn | core/controller/main_controller.py:329-334 | a stop of Psiphon, then a start |
| Controller.MainController.OfferWifiReset | core/controller/main_controller.py:144-152 | without Internet the reset is asked about, and performed only on "Yes" |
| Controller.MainController.OfferVpnStart | core/controller/main_controller.py:154-161 | when the task list does not show Psiphon the start is asked about; on "Yes" it is started and "use VPN" ticked; "use VPN" is ticked afterwards iff it was before or the question was answered "Yes" |
| Controller.MainController.MarkVpnInUse | core/controller/main_controller.py:163-164 | "use VPN" ticked when the task list shows Psiphon |
| Controller.MainController.SampleStatus | core/controller/main_controller.py:138-142 | the Wi-Fi status and the probe, both shown |
| Controller.MainController.UpdateStatusLabels | core/controller/main_controller.py:133-166 | returns the two samples taken before any corrective action; with Internet only VPN commands follow; "use VPN" is never cleared: it ends ticked iff it was before, the VPN question was answered "Yes", or the last task list shows Psiphon |
| Controller.MainController.SampleStart | core/controller/main_controller.py:248-249 | the Wi-Fi status, then whether Psiphon runs |
| Controller.MainController.EnsureWifi | core/controller/main_controller.py:252-260 | nothing when connected; otherwise a connection and a re-check that decides |
| Controller.MainController.EnsureInternet | core/controller/main_controller.py:262-271 | one probe; when it fails, exactly one disconnection, a connection and one more probe that decides |
| Controller.MainController.ApplyVpnChoice | core/controller/main_controller.py:273-284 | "use VPN" and Psiphon sampled at the start: nothing; not running at the start: a start and a warning if the task list then misses it; "use VPN" off: a running Psiphon is stopped |
| Controller.MainController.Reconcile | core/controller/main_controller.py:246-284 | the run's exchanges step by step; Wi-Fi down after the retry: no Internet or VPN step; Internet down after the retry: no VPN step; errors or warning shown accordingly |
| Controller.MainController.RunOnceConfig | core/controller/main_controller.py:241-291 | a run as above; the label update follows only when the run got past the Wi-Fi and Internet steps, and then "use VPN" ends ticked iff it was before, the VPN question was answered "Yes", or the last task list shows Psiphon |
| Controller.MainController.UpdatePsiphonUi | core/controller/main_controller.py:168-188 | the two VPN labels of the update, nothing else changes |
| Controller.MainController.StartAutoConfig | core/controller/main_controller.py:293-310 | a non-positive interval: an error and nothing else; otherwise the widgets locked and the timer running every interval*1000 ms |
| Controller.MainController.StopAutoConfig | core/controller/main_controller.py:312-320 | the timer stopped and the widgets unlocked |
| Controller.MainController.SwitchToSaved | core/controller/main_controller.py:204-210 | Psiphon is stopped first when running, then the profile is selected, shown and connected |
| Controller.MainController.HandleSaveProfile | core/controller/main_controller.py:190-217 | an empty field: an error and nothing else; a failed save: an error; a saved profile: the question, and on "Yes" the switch; the fields are cleared after a save |

## Left out

- Logging, console output and the log view's handler are not modelled. The log list model is modelled on its own.
- Qt threads, signals and timer scheduling are not modelled. One timer firing is one call of `RunOnceConfig`, one monitor iteration is one call of `Iterate`, and the stop that another thread requests is the end of the sample list given to `Run`. The one-second sleep of the loop and its `wait()` are not modelled.
- Message boxes other than questions are recorded as notices in the controller; the network manager's own error boxes (the missing Psiphon executable, a failed profile import) are not recorded.
- The controller's constructor sequence (loading the system profiles, the first status check, starting the monitor, connecting the buttons) is not modelled; only its default widget values are.
- `handle_switch_wifi` and `check_all_statuses` are not modelled, because they depend on the selection dialog in `core/controller/wifi_list_controller.py`, which is not part of this model. `handle_copy_log` and `closeEvent` are clipboard and window plumbing.
- `UpdateStatusLabels` does not model `psiphon_monitor.start()`, which does nothing on a thread that already runs.
- `RunOnceConfig` does not model the exception handler of `run_once_config`: every manager method it calls catches its own exceptions.
- SQLite plumbing (directory, connection, table creation, commit and rollback, close) is not modelled. Database errors other than the primary-key violation are not modelled either; the connection is a flag fixed when the store opens.
- The table's listing order is taken to be the order of insertion; the query has no `ORDER BY`.
- The network manager and the controller each open their own store on the same database file; the model shares one store.
- The temporary profile file written and removed by `create_wifi_profile` is folded into the `AddProfile` command, which carries the document.
- `Text.Lower` lower-cases ASCII letters only; the names it compares with are ASCII.
- An untimed question box closed without a button counts as "No".
- The psutil errors are mapped to the `Connections` cases: `AccessDenied`, `NoSuchProcess` and any other failure.
- Network.ProfileNamesListing and Network.AvailableListing state their round trips for listings whose indentation holds no 'A', and for scans whose tag and names hold neither ':' nor 'B'. Network.PasswordOfListing and Network.InterfacesListing need only that the key does not occur before its field. These are restrictions of the lemmas, not of the readers.
- WlanProfile.DocumentRoundTrip: the profile XML is written without escaping, as the program writes it. The round trip is stated against a reader that takes the text up to the next '<', so it holds for an SSID and a password free of '<'. A password holding '&' or '<' gives a document that an XML reader would reject or read differently; `DocumentUnescaped` shows the '<' case, and XML parsing itself is not modelled.
- Network.NetworkManager.ConnectWifi: for a complete selection that is not connected, the contract states only that Wi-Fi commands are issued and that the result is the re-checked status; the shape of the attempt is stated by `ConnectSelection` and `AttemptConnection`.
- Controller.MainController.Reconnect (a helper) states only that `connect_wifi` issues Wi-Fi commands and keeps a complete selection; the Wi-Fi, Internet and reset steps that use it therefore state the connection part only as Wi-Fi commands.
- Controller.MainController.UpdateStatusLabels: after a Wi-Fi reset, the exchanges that follow are not described further; with Internet they are stated only as VPN commands.
- Controller.MainController.RunOnceConfig: the exchanges of the final label update are stated only to be present.
