# Aerostack2 core protocols, verified

A Dafny model of the parts of Aerostack2 in which several components have to agree: the settlement of a
control mode between the motion controller and the aerial platform, the goal protocol of the behaviour
tree's action nodes, the loop pacer, the launch configuration, and the angle arithmetic that controllers
share. `dafny verify dfyconfig.toml` checks all of it.

## What is modelled

**Control modes** (`ControlModes`, `ModeNegotiation`). A mode is a byte or a message. Two searches for a
mode in a list exist side by side: the platform takes the first match, the controller the last one. They
are methods with the original loops, proved against `BestMatch` and `LastMatch`, and the lemmas say on
which lists they agree. The negotiation fills lists of outputs and of (input, output) pairs; the lemmas
say which pairs there are, in which order, and that trying them in that order settles the best one.

**The platform** (`AerialPlatform`, `PlatformStateMachine`, `PlatformRuns`, `PlatformLaws`). The class has
the fields of the original and one method per callback; each method is proved against `Step`, which gives
the new state as a value. `PlatformRuns` proves what holds over every run of callbacks in any order, and
`PlatformLaws` says exactly what a mode change, the command timer and the other callbacks do, by their
inputs and the fields. The state machine is a table that is filled and scanned; the language it accepts is
characterized completely.

**The handler and the whole protocol** (`HandlerModel`, `ControllerHandler`, `Settlement`, `Rollback`,
`ServiceLaws`, `HandlerRuns`, `HandlerLaws`, `PlatformTraces`). `ControllerHandler` owns a reference to the
platform and to a plugin, and again each callback is proved against a step of `HandlerModel`. The network,
the driver and the plugin answer as they like: an `Env` holds a delivery for each request (it may be lost on
the way there or back, or refused) and a reply of the plugin for each pair. `Settlement` is about one service
call, `Rollback` about one that is tried in vain, `ServiceLaws` says exactly when a mode is established and
which, and `HandlerRuns` and `HandlerLaws` are about every run of requests, state updates, references,
platform news, timers and platform callbacks. `PlatformTraces` shows that each such run is a run of the
platform.

**The action node** (`BtActionNode`, `BtTicks`). Ticks and halts against a server that acknowledges, rejects and
completes goals whenever it likes, with results of any goal in any spin. Goals are numbered as they are
sent. `BtTicks` says exactly what a tick returns and leaves, and what a halt cancels.

**The pacer** (`Rate`). `GenericRate::sleep` with its three branches, over integer nanoseconds.

**The launch configuration** (`Strings`, `Trees`, `YamlLines`, `YamlStack`, `LaunchParamUtils`, `Documents`,
`FlatDictionary`, `LaunchConfiguration`). The indentation parser keeps its place in one colon-separated
string; it is proved to be the parser that keeps a stack of keys, and on well-indented documents to follow
the open dictionaries. The nested dictionaries are rebuilt from the names it records, updated by launch
arguments, merged with a user's file and written.

**Angles** (`FrameUtils`). Over the reals, with an arbitrary positive `pi`.

## What the code does that its description does not say

- A mode request that is tried in vain undoes the platform's change by asking for the mode of the last
  published `platform_info_`. `Rollback.RollbackSpec` says in every case where that leaves the platform.
  Stale news leads elsewhere (`Rollback.StaleNewsLeadsElsewhere`). Fresh news is not enough either: before
  its first change a platform is in a mode that encodes to 0x08, and a platform that does not list that
  byte refuses to go back to it, so it stays in the mode that was tried (`Rollback.FreshNewsIsNotEnough`,
  `Rollback.UnsetIsNotRestored`). With fresh news, no lost answers, a willing driver and a list of
  encodable modes this is the only case (`Rollback.RollsBackToReachable`). The hover that a bypass sends
  first is outside the undoing.
- In ATTITUDE without a yaw reference the platform asks for a twist that the controller does not publish
  (`HandlerRuns.PublishedIsWhatThePlatformUses`, `HandlerRuns.AttitudeWithoutYawIsPublished`). A platform
  that has had no twist then sends nothing (`PlatformRuns.TwistIsWaitedFor`); one that has had some may
  send an old one.
- The two searches for a mode may differ on a list with two entries of one key
  (`ControlModes.SearchesMayDifferOnRawLists`); the loading of the list is what makes them agree, and the
  controller's list is always one that the platform has loaded.
- The parser of parameter files drops the content of a line at the top level
  (`YamlLines.ContentAtTheTopIsLost`).
- The rebuilding of nested dictionaries compares names, not places, so a leaf named like a dictionary
  above it is an error unless that dictionary came with an earlier entry
  (`LaunchParamUtils.RebuildIsFaithful`, `LaunchParamUtils.RepeatedNameIsAnError`).
- Writing the configuration drops every other namespace when `/**` holds `ros__parameters` and nothing
  else (`LaunchConfiguration.WritingKeepsAll`).
- A halt while a goal is unacknowledged never cancels that goal, but may cancel the one before it
  (`BtTicks.HaltCancels`).
- A request that finds no pair to try does not fall back to a hover, unlike one whose pairs do not work
  (`ServiceLaws.EstablishedExactly`).
- The minimal error and the wrap of a plain difference differ at half a turn
  (`FrameUtils.MinErrorVersusWrap`).

## Model

| member | source | states |
|---|---|---|
| ControlModes.RoundTrip | as2_core/src/utils/control_mode_utils.cpp:162-294 | encoding and decoding undo each other exactly on recognized messages and on bytes with a known level and yaw; encoding is canonical |
| ControlModes.DocumentedBytes | as2_aerial_platforms/as2_platform_multirotor_simulator/config/control_modes.yaml:1-38 | the bytes are the documented ones, and the levels rise from UNSET and HOVER to TRAJECTORY |
| ControlModes.FrameUsageSpec | as2_core/src/utils/control_mode_utils.cpp:90-111 | which modes need a frame for a pose and which for a twist; UNSET, HOVER and BODY_RATES need none |
| ControlModes.DecodeByKey | as2_core/src/utils/control_mode_utils.cpp:237-294 | the decoded mode depends on control and yaw bits alone, never on the reserved ones |
| ControlModes.FindBestMatchWithMask | as2_core/src/utils/control_mode_utils.cpp:48-69 | the loop finds the mode itself if it is listed, else the first match, and says whether there is one |
| ControlModes.FindLastMatchWithMask | as2_motion_controller/src/controller_handler.cpp:52-67 | the loop finds the mode itself if it is listed, else the last match, else 0 |
| ControlModes.FirstMatchSpec | as2_core/src/utils/control_mode_utils.cpp:48-69 | the match is the first listed mode that matches, and there is one exactly if some listed mode does |
| ControlModes.LastMatchSpec | as2_motion_controller/src/controller_handler.cpp:52-67 | the listed mode itself, else the last listed match; and 0 means no match for every mode with a bit under the mask |
| ControlModes.LoadedSpec | as2_core/src/aerial_platform.cpp:407-442 | a loaded list has no reserved bits and no repetition, and offers exactly the modes of the configuration |
| ControlModes.LoadedKeepsOrder | as2_core/src/aerial_platform.cpp:407-442 | the loaded modes are in the order of their first appearance |
| ControlModes.SearchesAgree | as2_motion_controller/src/controller_handler.cpp:52-67 | on every loaded list both searches find the same mode, and both say whether there is one exactly unless it is the mode 0 and listed |
| ControlModes.SearchesMayDifferOnRawLists | as2_motion_controller/src/controller_handler.cpp:52-67 | a list with one key twice, as loading never leaves one, on which the two searches give different modes |
| ControlModes.ResolveControlMode | as2_core/src/utils/control_mode_utils.cpp:71-88 | the method resolves as `Resolve` does and leaves its result alone when nothing matches |
| ControlModes.ResolveKeepsTheMode | as2_core/src/utils/control_mode_utils.cpp:71-88 | a request resolves exactly when a listed mode has its control and yaw mode, HOVER by control mode alone; to a listed mode that is the one asked for up to the yaw of a HOVER, and that would resolve again |
| ControlModes.UnsetIsOfferedByItsKey | as2_core/src/utils/control_mode_utils.cpp:71-88 | the mode before any change resolves exactly on lists with the key 0x08 |
| ControlModes.ListedModeResolvesToItself | as2_core/src/utils/control_mode_utils.cpp:71-88 | a listed mode, decoded, sent and resolved again is exactly itself |
| ModeNegotiation.FindOutputModes | as2_motion_controller/src/controller_handler.cpp:632-660 | the loop gives `OutputModes`, whose members and order the lemmas below state |
| ModeNegotiation.CheckSuitabilityInputMode | as2_motion_controller/src/controller_handler.cpp:662-693 | the input is resolved to itself or the first listed match, and suits an output exactly when it is found and not below it |
| ModeNegotiation.FindModePairs | as2_motion_controller/src/controller_handler.cpp:695-712 | the loop gives `ModePairs`, whose members and order the lemmas below state |
| ModeNegotiation.OutputsSpec | as2_motion_controller/src/controller_handler.cpp:632-660 | the outputs are exactly the non-zero platform modes found by the preferred or a controller output mode, without repetition |
| ModeNegotiation.OutputsAreOrdered | as2_motion_controller/src/controller_handler.cpp:205-212 | with sorted controller modes and a loaded platform list, the preferred output is first and the others strictly ascend |
| ModeNegotiation.PairsSpec | as2_motion_controller/src/controller_handler.cpp:695-712 | a pair is there exactly when its input is the one the request resolves to, its output is an output, and the input is not below it |
| ModeNegotiation.PairsAreOrdered | as2_motion_controller/src/controller_handler.cpp:695-712 | the pairs keep the order of the outputs |
| ModeNegotiation.FirstWorkingSpec | as2_motion_controller/src/controller_handler.cpp:462-489 | the first pair that works is one, all before it do not, and there is none only if none works |
| ModeNegotiation.SettledIsBest | as2_motion_controller/src/controller_handler.cpp:632-712 | of all pairs that could serve a request, the first that works is the preferred output if that works and else the lowest |
| PlatformStateMachine.StateMachine.DefineTransitions | as2_core/src/platform_state_machine.cpp:103-167 | the table holds the transitions of `Next` and no others |
| PlatformStateMachine.StateMachine.GetTransition | as2_core/src/platform_state_machine.cpp:81-93 | the scan returns the transition of a state and an event, or one marked invalid exactly when there is none |
| PlatformStateMachine.StateMachine.ProcessEvent | as2_core/src/platform_state_machine.cpp:55-77 | an event is accepted exactly when the state has a transition for it, and a refused one leaves the state |
| PlatformStateMachine.AcceptedIffInLanguage | as2_core/src/platform_state_machine.cpp:103-167 | a word is accepted from DISARMED exactly when it is a prefix of armed periods with whole flights, possibly ended by one emergency |
| PlatformStateMachine.AcceptedLanguage | as2_core/src/platform_state_machine.cpp:55-77 | the accepted events of any sequence are in that language, and every word of it is accepted whole |
| PlatformStateMachine.Balance | as2_core/src/platform_state_machine.cpp:103-144 | until an emergency, accepted take-offs lead landings by one exactly in FLYING, and armings lead disarmings by one exactly outside DISARMED |
| PlatformStateMachine.EmergencyAbsorbs | as2_core/src/platform_state_machine.cpp:146-166 | no sequence of events leaves EMERGENCY |
| AerialPlatform.AerialPlatform.constructor | as2_core/src/aerial_platform.cpp:156-165 | a platform starts with the loaded modes, UNSET, disarmed and with pending references |
| AerialPlatform.AerialPlatform.LoadControlModes | as2_core/src/aerial_platform.cpp:407-442 | the loop clears the reserved bits and drops what the search finds already there, which is `Loaded` |
| AerialPlatform.AerialPlatform.SetPlatformControlMode | as2_core/src/aerial_platform.cpp:230-290 | a change is accepted exactly when the mode resolves, the driver accepts and declares its frames; a refused one leaves the whole state, an accepted one sets mode, frames and pending references alone |
| AerialPlatform.AerialPlatform.SetCommandPoseFrameId | as2_core/src/aerial_platform.cpp:292-303 | an empty frame is refused |
| AerialPlatform.AerialPlatform.SetCommandTwistFrameId | as2_core/src/aerial_platform.cpp:305-316 | an empty frame is refused |
| AerialPlatform.AerialPlatform.ResetActuatorCommandMsgs | as2_core/src/aerial_platform.cpp:179-191 | the commands are emptied into the declared frames and count as new references |
| AerialPlatform.AerialPlatform.Reset | as2_core/src/aerial_platform.cpp:167-177 | arming, offboard mode and state are reset, the control mode and its frames are kept |
| AerialPlatform.AerialPlatform.SetArmingState | as2_core/src/aerial_platform.cpp:193-212 | arming changes only when it differs and the driver does it, and then feeds its event |
| AerialPlatform.AerialPlatform.SetOffboardControl | as2_core/src/aerial_platform.cpp:214-228 | offboard mode changes only when it differs and the driver does it |
| AerialPlatform.AerialPlatform.Takeoff | as2_core/src/aerial_platform.cpp:318-327 | a done take-off feeds its event |
| AerialPlatform.AerialPlatform.LandPlatform | as2_core/src/aerial_platform.cpp:329-338 | a done landing feeds its event |
| AerialPlatform.AerialPlatform.AlertEvent | as2_core/src/aerial_platform.cpp:340-362 | the kill switch and the emergency hover feed the emergency, other alerts nothing |
| AerialPlatform.AerialPlatform.ConvertCommand | as2_core/src/utils/control_mode_utils.cpp:119-133 | a command is converted exactly when it has a frame that is the target or has a transform to it, and then it is in the target |
| AerialPlatform.AerialPlatform.ConvertCommandsToFrame | as2_core/src/utils/control_mode_utils.cpp:137-160 | the messages a mode carries are converted, the twist also when the pose fails |
| AerialPlatform.AerialPlatform.SendCommand | as2_core/src/aerial_platform.cpp:364-405 | the command timer refines `Timer` |
| PlatformRuns.InvRun | as2_core/src/aerial_platform.cpp:230-316 | in every reachable state every reference of the mode has a frame, a trajectory has a single one, and the mode is a configured one or the initial one |
| PlatformRuns.PendingWasFed | as2_core/src/aerial_platform.cpp:57-85 | new references are pending in a mode other than HOVER and UNSET only if one came, or a reset, since it was accepted |
| PlatformRuns.SentCommandsAreGated | as2_core/src/aerial_platform.cpp:364-405 | in every run a command goes to the driver only when settled, connected, armed, offboard, not in emergency, fed, and with every message in its declared frame |
| PlatformRuns.EmergencyLatches | as2_core/src/aerial_platform.cpp:340-362 | after an emergency alert and until a reset the state is EMERGENCY and no command is sent, whatever happens |
| PlatformRuns.RestoreBringsTheModeBack | as2_core/src/aerial_platform.cpp:230-290 | asking for the mode of a reachable state is accepted exactly if the list offers it and the driver takes what it resolves to, and then brings it back up to the yaw of a HOVER |
| PlatformRuns.OnlyUnsetIsNotOffered | as2_core/src/aerial_platform.cpp:230-290 | on a list of encodable modes every reachable mode resolves to itself, except the one before any change exactly if 0x08 is not listed |
| PlatformRuns.TwistIsWaitedFor | as2_core/src/aerial_platform.cpp:386-404 | a platform without a twist sends nothing in a mode that uses one, in any run without a twist or a reset |
| PlatformLaws.ModeChange | as2_core/src/aerial_platform.cpp:230-290 | a change is accepted exactly if the list offers the mode and the driver accepts it and sets the frames it needs, one for a trajectory; what it then leaves, field by field, and that a refused one leaves everything |
| PlatformLaws.SomeNeedNoFrame | as2_core/src/aerial_platform.cpp:249-270 | HOVER, UNSET and BODY_RATES are accepted whatever frames the driver declares |
| PlatformLaws.DeclaredIsTheLast | as2_core/src/aerial_platform.cpp:292-316 | a frame declared from scratch is the last one set that is not empty |
| PlatformLaws.TimerExactly | as2_core/src/aerial_platform.cpp:364-405 | when the timer sends, stops or fails to convert: by the gates, and by each message of the mode having a frame that is the declared one or has a transform; a message changes its frame only so |
| PlatformLaws.PendingExactly | as2_core/src/aerial_platform.cpp:286-288 | over every run a command is pending exactly when one came, the actuators were reset or an idle mode was accepted since a carrying mode was |
| PlatformLaws.FieldsExactly | as2_core/src/aerial_platform.cpp:167-228 | which callbacks change the mode, the frames and each switch |
| PlatformLaws.StatusExactly | as2_core/src/aerial_platform.cpp:193-212 | which event each callback feeds to the state machine |
| PlatformLaws.CommandsExactly | as2_core/src/aerial_platform.cpp:57-85 | which callbacks change each command |
| PlatformLaws.StatusIsWhatWasFed | as2_core/src/aerial_platform.cpp:318-362 | over every run the flight state is what the state machine makes of the events fed since the reset, and the accepted ones are in its language |
| PlatformLaws.AFlight | as2_core/src/aerial_platform.cpp:193-212 | arming, flying and disarming go through the states of a flight and end where they began |
| ControllerHandler.Build | as2_motion_controller/src/controller_handler.cpp:89-163 | a built platform, plugin and handler are in a state from which the runs start |
| ControllerHandler.ControllerBase.SetMode | as2_motion_controller/include/as2_motion_controller/controller_base.hpp:366-386 | the plugin keeps the pair it accepts, and its old one otherwise |
| ControllerHandler.ControllerBase.Reset | as2_motion_controller/include/as2_motion_controller/controller_base.hpp:430-434 | no reference has been received after a reset |
| ControllerHandler.ControllerHandler.SetPlatformControlMode | as2_motion_controller/src/controller_handler.cpp:619-627 | one request, seen as accepted only if it got there, was accepted and answered |
| ControllerHandler.ControllerHandler.ListPlatformAvailableControlModes | as2_motion_controller/src/controller_handler.cpp:554-584 | the platform's list is fetched once; an empty one is a failure |
| ControllerHandler.ControllerHandler.TrySetPlatformHover | as2_motion_controller/src/controller_handler.cpp:716-735 | the platform is asked to hover exactly if it offers some hover mode |
| ControllerHandler.ControllerHandler.TryToBypassController | as2_motion_controller/src/controller_handler.cpp:737-753 | a mode other than UNSET and HOVER bypasses the controller exactly if the platform lists its key |
| ControllerHandler.ControllerHandler.Reset | as2_motion_controller/src/controller_handler.cpp:214-223 | clock, state, references and the plugin are reset |
| ControllerHandler.ControllerHandler.TryPairs | as2_motion_controller/src/controller_handler.cpp:467-489 | the loop tries the pairs in order until both sides accept one, and remembers whether the platform changed |
| ControllerHandler.ControllerHandler.Establish | as2_motion_controller/src/controller_handler.cpp:513-547 | what a settled pair leaves behind |
| ControllerHandler.ControllerHandler.ChoosePairs | as2_motion_controller/src/controller_handler.cpp:402-460 | the established mode is dropped first; the pairs to try, or none for a refusal |
| ControllerHandler.ControllerHandler.SetControlModeSrvCall | as2_motion_controller/src/controller_handler.cpp:391-551 | the service call refines `SetControlMode` and calls itself at most once |
| ControllerHandler.ControllerHandler.StateCallback | as2_motion_controller/src/controller_handler.cpp:225-274 | a state update is fed while a mode is established and not bypassed, a pending hover with it |
| ControllerHandler.ControllerHandler.RefPoseCallback | as2_motion_controller/src/controller_handler.cpp:276-298 | a pose reference is kept while listening and, if not bypassed, once transformed |
| ControllerHandler.ControllerHandler.RefTwistCallback | as2_motion_controller/src/controller_handler.cpp:300-322 | a twist reference likewise |
| ControllerHandler.ControllerHandler.RefTrajCallback | as2_motion_controller/src/controller_handler.cpp:324-370 | a trajectory also needs setpoints and one frame for pose and twist |
| ControllerHandler.ControllerHandler.RefThrustCallback | as2_motion_controller/src/controller_handler.cpp:372-384 | a thrust reference is kept while listening |
| ControllerHandler.ControllerHandler.SendCommand | as2_motion_controller/src/controller_handler.cpp:755-791 | a bypassed command needs a motion reference, another one a positive step and a computed output |
| ControllerHandler.ControllerHandler.ControlTimerCallback | as2_motion_controller/src/controller_handler.cpp:586-617 | the gates of the control timer |
| Settlement.SettlesTheFirst | as2_motion_controller/src/controller_handler.cpp:462-489 | the settled pair is the first that works, judged as if no earlier one had been tried; none is settled only if none works |
| Settlement.SettlesTheBest | as2_motion_controller/src/controller_handler.cpp:462-489 | with answers that depend on the pair alone, the settled output is the preferred one if it works, else the lowest that works |
| Settlement.NegotiatedPairsResolve | as2_core/src/aerial_platform.cpp:230-290 | on its own list the platform resolves a negotiated output to exactly that output, so only driver, frames, network and plugin decide |
| Settlement.PrepareSpec | as2_motion_controller/src/controller_handler.cpp:402-460 | before pairs are tried only the list, the bypass and, for a hover, the platform may have changed; every pair suits the request |
| Settlement.ServeSpec | as2_motion_controller/src/controller_handler.cpp:391-551 | a settled request leaves both sides agreed on what was asked for; another one leaves nothing established and nothing else changed |
| Settlement.SetControlModeSpec | as2_motion_controller/src/controller_handler.cpp:391-551 | for every request and all answers: true only if the asked mode is settled; false leaves nothing or the hover fallback; both sides agree; at most 2 (n + 1) + 3 platform requests |
| ServiceLaws.PreparedExactly | as2_motion_controller/src/controller_handler.cpp:402-460 | exactly when a request bypasses the controller and with which output, and what it tries otherwise |
| ServiceLaws.PairsExactly | as2_motion_controller/src/controller_handler.cpp:439-460 | exactly which pairs are tried for the plugin |
| ServiceLaws.EstablishedExactly | as2_motion_controller/src/controller_handler.cpp:491-551 | a mode is established exactly if some pair of the request works, or there were pairs, none worked, the request was not a hover and some pair of the hover works; it is the first that works, with the plugin's frames; the answer is true exactly in the first case |
| ServiceLaws.PluginModesExactly | as2_motion_controller/include/as2_motion_controller/controller_base.hpp:366-386 | a service call changes the plugin's modes exactly when it settles a pair with it, and then to that pair, whatever it refused on the way |
| Rollback.RollbackSpec | as2_motion_controller/src/controller_handler.cpp:464-495 | for every vain request and whatever is lost: the mode the platform is left in, and that it is the entry mode exactly when the restored mode, or else the last one taken, is |
| Rollback.RollsBack | as2_motion_controller/src/controller_handler.cpp:464-495 | with nothing lost and a willing driver the platform is back exactly if nothing was taken or the news is its entry mode and its list offers that, and what holds for other news |
| Rollback.RollsBackToReachable | as2_motion_controller/src/controller_handler.cpp:464-495 | on an encodable list with fresh news a reachable platform is back in exactly its entry mode unless a pair was taken from the unlisted mode before any change |
| Rollback.UnsetIsNotRestored | as2_core/src/aerial_platform.cpp:232-238 | going back to the mode before any change is refused by every driver and list without 0x08, and a vain request then ends in the last mode taken, whatever is answered |
| Rollback.FreshNewsIsNotEnough | as2_motion_controller/src/controller_handler.cpp:491-495 | a just built platform with fresh news that is not brought back |
| Rollback.StaleNewsLeadsElsewhere | as2_motion_controller/src/controller_handler.cpp:464-495 | a reachable platform that an accepted restore of stale news leaves in another mode |
| HandlerRuns.AgreementAlways | as2_motion_controller/src/controller_handler.cpp:391-551 | in every reachable state an established mode is the platform's mode up to the yaw of a HOVER, and is bypassed with one mode for both ends or is the last pair the plugin accepted, its input not below its output, with references taken in the frames the plugin wants |
| HandlerRuns.EstablishedLevels | as2_motion_controller/src/controller_handler.cpp:687-690 | the established messages themselves are ordered, on lists of encodable modes |
| HandlerRuns.PublishingIsGated | as2_motion_controller/src/controller_handler.cpp:586-617 | over every run a command is published exactly by a control timer when armed, offboard and established outside HOVER, with a reference since the settlement if bypassed, and otherwise a state, a reference, time gone by and a computed output |
| HandlerRuns.StepsAddUp | as2_motion_controller/src/controller_handler.cpp:768-780 | every step given to the plugin is positive, and they add up to the time since the reset |
| HandlerRuns.HoverIsInjectedOnce | as2_motion_controller/src/controller_handler.cpp:243-267 | over every run a state update injects a hover reference exactly if it is the first with a transform after a settled plugin hover and no request has come since; with its pose and a zero twist; never more often than such hovers |
| HandlerRuns.PublishedIsWhatThePlatformUses | as2_motion_controller/src/controller_handler.cpp:793-828 | each message is published exactly if the platform converts it, but for the twist of an ATTITUDE without a yaw reference, and for the rates and thrusts that it does not convert |
| HandlerRuns.AttitudeWithoutYawIsPublished | as2_motion_controller/src/controller_handler.cpp:816-822 | a run after which a command is published that lacks the twist its platform uses |
| HandlerRuns.SettledModeIsTheBest | as2_motion_controller/src/controller_handler.cpp:391-551 | in every reachable state a request to the plugin succeeds exactly if some pair works, and the established modes are then the best pair: the preferred output, else the lowest |
| HandlerLaws.StatesAreFed | as2_motion_controller/src/controller_handler.cpp:225-268 | over every run the plugin is fed exactly the transformed state updates that come while it is in force |
| HandlerLaws.StepsAreComputed | as2_motion_controller/src/controller_handler.cpp:768-780 | exactly when the plugin computes, and that the step is the time since the last one |
| HandlerLaws.ReferencesAreKept | as2_motion_controller/src/controller_handler.cpp:276-384 | exactly which references are kept, and that each one the plugin gets is in the frame it wants |
| HandlerLaws.NewsIsTheLast | as2_motion_controller/src/controller_handler.cpp:386-389 | what the handler knows of the platform is the last news |
| PlatformTraces.EveryRunIsAPlatformRun | as2_motion_controller/src/controller_handler.cpp:619-627 | whatever the handler does, its platform goes through a run of its own: exactly the callbacks of the handler's run in their order, with mode requests in between |
| PlatformTraces.PlatformAlways | as2_core/src/aerial_platform.cpp:230-290 | the platform's own invariant holds under every run of the handler |
| PlatformTraces.EmergencyHolds | as2_core/src/aerial_platform.cpp:340-362 | under every run of the handler, the state is EMERGENCY and no command is sent from an alert to the reset |
| BtActionNode.TickKeepsInv | as2_behavior_tree/include/as2_behavior_tree/bt_action_node.hpp:188-307 | every tick of a good node leaves a good one, completes only with a known result of the last goal, and sends a goal when it starts |
| BtActionNode.HaltKeepsInv | as2_behavior_tree/include/as2_behavior_tree/bt_action_node.hpp:313-354 | a halt leaves a good, idle node and sends no goal |
| BtActionNode.CompletionIsOfTheLastGoal | as2_behavior_tree/include/as2_behavior_tree/bt_action_node.hpp:287-307 | over every run, a status computed from a result is of the goal sent last; every run exists, so no missing handle is ever looked at |
| BtActionNode.AbandonedGoalsStayAbandoned | as2_behavior_tree/include/as2_behavior_tree/bt_action_node.hpp:420-443 | superseded, halted, timed-out and rejected goals never complete the node |
| BtActionNode.WaitingStaysWithinTheTimeout | as2_behavior_tree/include/as2_behavior_tree/bt_action_node.hpp:453-498 | waiting never pushes the elapsed time past the timeout |
| BtActionNode.WaitingEnds | as2_behavior_tree/include/as2_behavior_tree/bt_action_node.hpp:201-222 | RUNNING is returned fewer than timeout / loop times for one unacknowledged goal, if a timed-out wait takes its slice |
| BtActionNode.BtActionNode.SendNewGoal | as2_behavior_tree/include/as2_behavior_tree/bt_action_node.hpp:359-418 | a new goal drops an old result and waits for its acknowledgement |
| BtActionNode.BtActionNode.ResultCallback | as2_behavior_tree/include/as2_behavior_tree/bt_action_node.hpp:420-443 | a result counts only when nothing is unacknowledged and it is of the goal with the handle |
| BtActionNode.BtActionNode.IsFutureGoalHandleComplete | as2_behavior_tree/include/as2_behavior_tree/bt_action_node.hpp:453-498 | how a wait for the acknowledgement ends |
| BtActionNode.BtActionNode.TickOnce | as2_behavior_tree/include/as2_behavior_tree/bt_action_node.hpp:188-307 | a tick refines `Tick` |
| BtActionNode.BtActionNode.HaltNode | as2_behavior_tree/include/as2_behavior_tree/bt_action_node.hpp:313-354 | a halt refines `Halt` |
| BtTicks.TickReturns | as2_behavior_tree/include/as2_behavior_tree/bt_action_node.hpp:188-307 | exactly when a tick fails, runs on, completes or throws: by rejection, interruption and timeout of the waits, and by the last result of the last goal and its hook; never a success without a result |
| BtTicks.TickLeaves | as2_behavior_tree/include/as2_behavior_tree/bt_action_node.hpp:188-307 | the goal last sent and when, whether it is unacknowledged, the update flag and the status after a tick |
| BtTicks.TickHandle | as2_behavior_tree/include/as2_behavior_tree/bt_action_node.hpp:188-307 | exactly which goal has the handle after a tick: a rejection and a result drop it |
| BtTicks.DeliveredIsTheLast | as2_behavior_tree/include/as2_behavior_tree/bt_action_node.hpp:420-443 | of the results that come, the last one of the acknowledged goal stays |
| BtTicks.HaltCancels | as2_behavior_tree/include/as2_behavior_tree/bt_action_node.hpp:313-354 | exactly when a halt cancels, and that it is the last goal if that is acknowledged and never one that is not |
| BtTicks.MillisTruncates | as2_behavior_tree/include/as2_behavior_tree/bt_action_node.hpp:205-206 | the elapsed time is cut to whole milliseconds toward zero |
| Rate.GenericRate.Sleep | as2_core/include/as2_core/rate.hpp:82-111 | the three branches, and a requested sleep in (0, period] |
| Rate.NReturnsTakeNPeriods | as2_core/include/as2_core/rate.hpp:82-111 | n returns since construction take at least n periods, whatever the work, overruns and resynchronisations |
| Rate.AnyWindowIsPaced | as2_core/include/as2_core/rate.hpp:82-111 | in any window of a run there is at most one period less than the calls that separate its ends |
| Rate.AtMostTwoWithoutSleep | as2_core/include/as2_core/rate.hpp:97-107 | of three calls at one instant the third sleeps |
| Rate.TwoWithoutSleep | as2_core/include/as2_core/rate.hpp:97-107 | two that do not sleep are possible |
| Rate.PunctualCallsDoNotDrift | as2_core/include/as2_core/rate.hpp:85-96 | a loop that is never late returns at exactly n periods |
| Rate.BeatIsKept | as2_core/include/as2_core/rate.hpp:95-96 | without a missed cycle the n-th interval starts n periods after the first, however late calls are |
| Rate.AMissedCycleStartsAnew | as2_core/include/as2_core/rate.hpp:98-107 | a missed cycle starts the beat one period after the call |
| Rate.IntervalIsNear | as2_core/include/as2_core/rate.hpp:86-109 | the pacer is never more than one period ahead of the last return |
| YamlLines.MergeYamlKeys | as2_core/as2_core/launch_param_utils.py:91-155 | the loop over the lines is `Parse`, an error included |
| YamlStack.StringFollowsStack | as2_core/as2_core/launch_param_utils.py:100-142 | on every document, however it is indented, the parser that keeps one string records what the one that keeps a stack of keys does, and fails exactly on a line more than one step deeper than the open keys |
| YamlLines.ParseIsTheDocument | as2_core/as2_core/launch_param_utils.py:100-142 | every well-indented document of any depth is read without an error, and at each line the string is the stack of open dictionaries |
| YamlLines.RecordedAreTheLines | as2_core/as2_core/launch_param_utils.py:132-142 | exactly the lines with content below the top are recorded, under the keys of the nearest preceding lines at each smaller depth and their own, in order of first appearance and with the last content |
| YamlLines.ContentAtTheTopIsLost | as2_core/as2_core/launch_param_utils.py:125-127 | the content of a line is lost exactly when it stands at the top |
| LaunchParamUtils.RegenerateYamlFile | as2_core/as2_core/launch_param_utils.py:76-88 | the loop over the names is `Rebuild`, an error included |
| LaunchParamUtils.InsertSpec | as2_core/as2_core/launch_param_utils.py:79-86 | one insertion succeeds exactly if every dictionary above the leaf that is named like it exists, and then adds that leaf and nothing else |
| LaunchParamUtils.InsertOverTaken | as2_core/as2_core/launch_param_utils.py:79-86 | where something is already, an insertion changes nothing; below a value it is an error |
| LaunchParamUtils.RebuildSpec | as2_core/as2_core/launch_param_utils.py:76-88 | of paths none of which begins another, the rebuilt leaves are exactly the entries |
| LaunchParamUtils.RebuildIsFaithful | as2_core/as2_core/launch_param_utils.py:76-88 | every entry is at its path exactly if no path begins another and every dictionary named like a leaf below it came with an earlier entry |
| LaunchParamUtils.RepeatedNameIsAnError | as2_core/as2_core/launch_param_utils.py:81-85 | a path on which the rebuilding fails, and an earlier entry that makes it succeed |
| LaunchParamUtils.ReadCompleteYamlText | as2_core/as2_core/launch_param_utils.py:158-163 | parsing and rebuilding is `Read` |
| Documents.ReadIsTheDocument | as2_core/as2_core/launch_param_utils.py:76-163 | reading any well-indented document gives each path the content of its last line, exactly if no recorded path begins another and dictionaries named like a leaf below them are opened earlier; and then no other leaf |
| Documents.LeavesAndHeadersApart | as2_core/as2_core/launch_param_utils.py:91-155 | no recorded path begins another if no line with content has the path of a dictionary's line; dictionaries may be opened again |
| Documents.ReadCovers | as2_core/as2_core/launch_param_utils.py:76-163 | what is read has a leaf at or above a path exactly if a line stands for it |
| FlatDictionary.Flatten | as2_core/as2_core/launch_param_utils.py:188-207 | in whatever order keys are taken, every leaf has its dotted name and every name the value of a leaf that has it |
| FlatDictionary.FlatteningTwiceIsOnce | as2_core/as2_core/launch_param_utils.py:282-292 | flattening what was flattened changes nothing, for all dictionaries |
| FlatDictionary.FlattenAfterRebuild | as2_core/as2_core/launch_param_utils.py:188-207 | rebuilding and flattening gives every entry back under its dotted name exactly if entries of one name have one value, and no other name |
| FlatDictionary.CleanNamesAgree | as2_core/as2_core/launch_param_utils.py:202-207 | keys without dots that are not empty give every leaf its own name |
| FlatDictionary.DotsCanCollide | as2_core/as2_core/launch_param_utils.py:202-207 | two paths with one dotted name |
| LaunchConfiguration.UpdateLeafKeys | as2_core/as2_core/launch_configuration_from_config_file.py:196-214 | the recursive loop is `Updated` |
| LaunchConfiguration.UpdateSpec | as2_core/as2_core/launch_configuration_from_config_file.py:196-214 | the update keeps every path, and puts the argument of the last key, or else the old value, converted, at each |
| LaunchConfiguration.MergeDicts | as2_core/as2_core/launch_configuration_from_config_file.py:216-236 | the recursive loop is `Merged`, and an error exactly when there is a clash |
| LaunchConfiguration.ClashSpec | as2_core/as2_core/launch_configuration_from_config_file.py:228-233 | a merge fails exactly if the second side has a dictionary with something in it at the path of a value of the first |
| LaunchConfiguration.MergedAt | as2_core/as2_core/launch_configuration_from_config_file.py:216-236 | for all trees, every path has the second side's value where a leaf of it covers the path, else the first side's |
| LaunchConfiguration.MergeIsTheUnion | as2_core/as2_core/launch_configuration_from_config_file.py:216-236 | the merge is the union with right bias exactly if no leaf of the second side stands above a leaf of the first |
| LaunchConfiguration.LayersByPriority | as2_core/as2_core/launch_configuration_from_config_file.py:48-51 | the documented priority at every path, and exactly when it is an error |
| LaunchConfiguration.WritingKeepsAll | as2_core/as2_core/launch_configuration_from_config_file.py:150-168 | nothing is made up, and everything is written exactly unless `/**` holds the parameters alone and there is something outside it |
| LaunchConfiguration.ParametersComeFirst | as2_core/as2_core/launch_configuration_from_config_file.py:153-166 | the parameters for all nodes are written first and by themselves, the rest after them |
| LaunchConfiguration.NothingEmptyIsWritten | as2_core/as2_core/launch_configuration_from_config_file.py:164-166 | an empty dictionary is not written |
| LaunchConfiguration.Perform | as2_core/as2_core/launch_configuration_from_config_file.py:170-194 | the whole substitution, errors included |
| LaunchConfiguration.PerformedByLayers | as2_core/as2_core/launch_configuration_from_config_file.py:170-194 | for all files, the substitution fails exactly if one cannot be read or the two clash, and what it gives is the user's value where there is one, else the updated default |
| LaunchConfiguration.ConfigurationOfTheDocuments | as2_core/as2_core/launch_configuration_from_config_file.py:150-194 | from the lines of readable files, with or without a user's, to what is written: an error exactly if a user's line goes on below a default value; else the user's content, or the argument or default converted, and nothing else |
| FrameUtils.Wrap0To2PiSpec | as2_core/src/utils/frame_utils.cpp:180-187 | the wrap is congruent and in [0, 2 pi) |
| FrameUtils.WrapPiToPiSpec | as2_core/src/utils/frame_utils.cpp:189-196 | the wrap is congruent and in [-pi, pi) |
| FrameUtils.WrapsAreUnique | as2_core/src/utils/frame_utils.cpp:180-196 | each wrap is the only congruent angle in its interval |
| FrameUtils.MinErrorSpec | as2_core/src/utils/frame_utils.cpp:198-209 | the error is congruent to the difference and in [-pi, pi] |
| FrameUtils.MinErrorIsLeast | as2_core/src/utils/frame_utils.cpp:198-209 | no congruent angle is smaller in absolute value |
| FrameUtils.MinErrorIsAMetric | as2_core/src/utils/frame_utils.cpp:198-209 | antisymmetry, zero exactly for congruent angles, triangle inequality |
| FrameUtils.MinErrorVersusWrap | as2_core/src/utils/frame_utils.cpp:189-209 | the error is the wrap of the difference exactly unless the first wrapped angle is half a turn ahead |

## Left out

- ROS transport, parameters, logging, executors and plugin loading: a service call is a `Delivery`, a
  hook of the driver or the plugin is a reply in the environment.
- The handler is the only client that changes the platform's mode, and a request is processed before its
  caller goes on: a request that is processed after its answer was given up is not modelled.
- The list the handler fetches is the platform's own list.
- ControllerHandler.ControllerHandler.constructor: the sorting of the controller's modes is a precondition,
  because the standard library sorts them.
- Message contents and transforms: a command is its frame, a transform succeeds or does not. Only the pose
  of a state update and the twist of a hover reference have values.
- ControllerHandler.ControllerBase.Reset: `state_received_`, which the handler never looks at, is not modelled.
- A plugin's `reset` is the one of its base class, and a plugin does not set the flag of a received reference itself.
- The state estimator, the motion reference handlers, behaviours other than the action node, simulators
  and sensors.
- BtActionNode.BtActionNode.TickOnce: the tree resets a node after a final status and `rclcpp::ok()` holds;
  feedback is not modelled, and a failure to cancel is only logged by the original.
- BtActionNode.WaitingEnds: a hypothesis says that the clock does not go back and that a wait which times
  out takes its slice.
- Rate.GenericRate.Sleep: `set_period` and `reset` are left out; the runs have a period above zero, a clock
  that does not go back and sleeps that do not end early.
- Raw text of parameter files: lines come split into indentation, key and content, without comments;
  lines without a colon, among them list items, are left out.
- The conversion of text to numbers and booleans is an arbitrary function. A text that converts to a
  dictionary counts as a value, and a launch argument is never a dictionary.
- Dictionaries are values, so merging does not show that the merged dictionary shares parts with the
  user's; the insertion of one path is a recursive function, where the original walks a reference down.
- YamlLines.ParseIsTheDocument: a document whose indentation is not a multiple of the first one, or skips
  a level, is only described by the stack of `YamlStack.StringFollowsStack`.
- LaunchConfiguration.ConfigurationOfTheDocuments: it asks for documents that are read as what they say,
  and `Documents.ReadIsTheDocument` says exactly which those are.
- The descriptions of parameters and the declaration of launch arguments.
- Rounding: angles are real numbers and `pi` is any positive one.
