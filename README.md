# Neon White ghost decoder, in Dafny

This project models the core of `neon-white-ghost-parser`: the decoder for
the game's delta-encoded ghost (replay) text, and the statistics pass over
the decoded frames. It also proves properties of that model.

A ghost buffer has a header, then `$`, then frame tokens separated by `|`:

- The header is a `/`-separated list: version `2`, forced ghost id, level
  name, total time, tick `0.03333`.
- Each frame token holds single-letter labels `a`..`k`, each followed by a
  value. The value runs up to the next letter.
- The decoder copies the previous frame's running values into a fresh
  frame, writes each label's value into it, and adds the frame's deltas.
  It then appends the frame to the ghost.
- The statistics pass makes one loop over the frames:
  - it sums the frame times;
  - it tracks the largest frame time and the smallest non-zero one;
  - it counts jumps, which are transitions from a grounded frame to one
    that is not.

The files:

- `text.dfy` (module `Text`) covers the pieces of the Rust standard library
  the source relies on:
  - `split`, `split_once`, `find`;
  - ASCII `is_alphabetic`;
  - `parse::<i64>`, with the 64-bit range;
  - `parse::<f64>`, as an exact decimal value.
- `ghost.dfy` (module `GhostTypes`) covers `src/ghost.rs`:
  - `Vector3` and `from_string`, as a loop over the comma fields;
  - the bullet-type and discard-ability tables;
  - `TriggerEvent`, `GhostFrame::new`, and the `Ghost` class.
- `ghost_parser.dfy` (module `GhostParser`) covers `src/ghost_parser.rs`:
  - `parse` and one arm of its header `match`, as methods on a `Ghost`;
  - `parse_frames` and one iteration of its loop, as methods on a `Ghost`;
  - the label tokenizer, the per-label `match` and the running-value
    update, as small methods.

  Each method is proved equal to a specification function: `Decoded`,
  `DecodeFrames`, `DecodeToken`, `FieldsOf`. Lemmas then state what those
  functions mean.
- `ghost_stats.dfy` (module `GhostStats`) covers `collect_stats`. It is a
  loop over the frames, proved equal to a fold (`Fold`). The fold is
  related to independent reference definitions: the sum of the frame
  times, the number of takeoffs, the number of grounded frames.

How failure is modelled:

- A Rust `Err` return is `Failed(Error(...))`.
- An `.unwrap()` that would panic is `Failed(Panic(site))`, where `site`
  names the unwrap.
- In both cases the ghost keeps what was written before the failure. The
  source behaves the same way: header fields already stored and frames
  already pushed stay.

Behaviour of the code worth stating plainly:

- The discard table has 20 step values: 10, 15, 20, then 30 to 190 in
  steps of 10 (src/ghost.rs:60-85).
- A discard code in 1000..=1190 that is not in the table, and a bullet code
  in 15..=20, panic at the `.unwrap()` (src/ghost_parser.rs:107-108). They
  are not returned as errors.
- A header with fewer than five `/` fields is accepted.
- A failed decode is not all-or-nothing. The header fields and the frames
  written before the failure remain in the ghost.
- There is a single statistics loop, `collect_stats`. It tracks sum, min,
  max and jumps; separate collectors are only a `todo` in the source
  (src/ghost_stats.rs:16).

## Model

| member | source | states |
|---|---|---|
| Text.FirstIndex | src/ghost_parser.rs:72 | the position found holds the character and no earlier position does |
| Text.FirstAlphabetic | src/ghost_parser.rs:74-75 | no letter occurs before the position found, and the position is a letter unless it is the end |
| Text.Split | src/ghost_parser.rs:13 | at least one piece, and no piece contains the separator |
| Text.SplitJoin | src/ghost_parser.rs:27 | joining the pieces with the separator gives back the input |
| Text.SplitCount | src/ghost_parser.rs:27 | there is one more piece than separators, so empty tokens count |
| Text.SplitOnce | src/ghost_parser.rs:10 | a split exists exactly when the separator occurs; the input is head + separator + tail, and the head has no separator |
| Text.ParseI64 | src/ghost_parser.rs:95 | a parsed integer lies in the 64-bit signed range |
| Text.ParseF64OfInteger | src/ghost_parser.rs:100-101 | `f64` parsing accepts every text that `i64` parsing accepts, with the same value, so an integer angle change reads as that number |
| GhostTypes.Vector3.Add | src/ghost.rs:28-32 | each coordinate of the result is the sum of the two coordinates |
| GhostTypes.Vector3FromString | src/ghost.rs:9-26 | the loop over the comma fields returns exactly `ParseVector` of the input |
| GhostTypes.ParseVectorSpec | src/ghost.rs:12-22 | the parse fails exactly when there are more than two commas; otherwise coordinate i is field i as a number, or 0.0 when that field is missing or not a number |
| GhostTypes.ParseVectorNonNumeric | src/ghost.rs:13-16 | `"x,2,3"` gives (0,2,3) without an error |
| GhostTypes.ParseVectorMissingField | src/ghost.rs:17-20 | `"1,2"` gives (1,2,0) |
| GhostTypes.ParseVectorEmpty | src/ghost.rs:11 | `""` gives the origin without an error |
| GhostTypes.ParseVectorTooLong | src/ghost.rs:21 | `"1,2,3,4"` is an error |
| GhostTypes.BulletType.FromTriggerEvent | src/ghost.rs:98-108 | succeeds exactly when i - 10 is in 0..4, and then the variant's ordinal is i - 10 |
| GhostTypes.BulletTypeRoundTrip | src/ghost.rs:88-108 | every bullet type is recovered from its ordinal + 10 |
| GhostTypes.DiscardAbility.FromTriggerEvent | src/ghost.rs:60-85 | succeeds exactly when i - 1000 is one of the 20 listed step values, and then the ability's discriminant is i - 1000 |
| GhostTypes.DiscardAbilityRoundTrip | src/ghost.rs:36-85 | every ability's discriminant is listed, and the ability is recovered from discriminant + 1000 |
| GhostTypes.NewFrame | src/ghost.rs:177-200 | index -1, event None, every number 0, every vector the origin, every flag false |
| GhostTypes.Ghost.constructor | src/ghost.rs:166-173 | no frames, empty level name, total time -1.0, forced id -1 |
| GhostParser.HeaderDecoding | src/ghost_parser.rs:13-25 | the header walk succeeds exactly when the header is accepted; a first field other than `2`, a fifth field other than `0.03333` and a sixth field each give their own error; the id, the verbatim level name and the total time are stored, and absent fields leave the old values |
| GhostParser.DecodeHeaderPastEnd | src/ghost_parser.rs:20-22 | any field at index 5 or beyond is an unknown-field error |
| GhostParser.ApplyHeaderField | src/ghost_parser.rs:14-23 | one header arm changes the ghost's header as the header function says, or fails and changes nothing, and never touches the frames |
| GhostParser.Parse | src/ghost_parser.rs:9-32 | the ghost's new state and the result are those of `Decoded` on the old state |
| GhostParser.DecodedKeepsFrames | src/ghost_parser.rs:10-30 | the frames before the call stay a prefix of the frames after it; without `$` the result is the missing-delimiter error and nothing changes |
| GhostParser.DecodedHeader | src/ghost_parser.rs:13-25 | a refused header fails the call and adds no frame; an accepted header prefix stores the forced id, the verbatim level name and the total time |
| GhostParser.DecodedAppends | src/ghost_parser.rs:27-28 | after an accepted header, the frames added are the frame walk over the `\|` tokens, and the result is that walk's failure or success |
| GhostParser.DecodedFrames | src/ghost_parser.rs:27-28 | after an accepted header: success exactly when one frame is added per `\|` token (empty tokens included); the k-th added frame has index k; the added frames carry running totals; on failure the reported failure is the refusal of the first refused label of the first token that did not decode |
| GhostParser.FieldValue | src/ghost_parser.rs:71-87 | the value starts just after the label's first occurrence, holds no letter, and ends at the next letter or at the end of the token |
| GhostParser.FieldsOf | src/ghost_parser.rs:69-89 | a label has an entry exactly when its letter occurs in the token |
| GhostParser.TokenizeFrame | src/ghost_parser.rs:67-89 | the map filled label by label is exactly `FieldsOf` of the token |
| GhostParser.ClassifyEvent | src/ghost_parser.rs:102-111 | 1 gives Jump, 3 Land and 2000 BulletHit; bullets exactly for 10..14 and discards exactly for listed codes in 1000..1190; codes outside every range are the spurious-event error; 15..20 and unlisted discard codes panic |
| GhostParser.EventCodeRoundTrip | src/ghost.rs:122-127 | each event is recovered from the code it is written with, and each accepted code is the code of the event it gives |
| GhostParser.ApplyLabel | src/ghost_parser.rs:93-119 | the arm for one label writes that label's decoded value into the frame, or fails where the source panics or errs |
| GhostParser.ApplyLabels | src/ghost_parser.rs:92-121 | the loop over the present labels gives the label walk `ApplyFields` |
| GhostParser.SetUpFrame | src/ghost_parser.rs:55-64 | a new frame with the given index, carrying the previous frame's running values when there is one |
| GhostParser.AddDeltas | src/ghost_parser.rs:123-126 | the frame with its deltas added to its running time, position, facing angle and pitch |
| GhostParser.ParseFrame | src/ghost_parser.rs:54-130 | one loop iteration returns `DecodeToken` of the token, and pushes exactly that frame when it decodes and nothing when it fails |
| GhostParser.FirstRefused | src/ghost_parser.rs:92-121 | the first present label, in order a to k, whose value is refused, with every earlier present label accepted |
| GhostParser.ApplyFieldsWalk | src/ghost_parser.rs:92-121 | the label walk fails exactly at the first refused label, with that label's failure, and otherwise writes every accepted value |
| GhostParser.DecodeTokenOutcome | src/ghost_parser.rs:92-121 | a token decodes exactly when each present label's value is accepted; otherwise the failure is that of the first refused label |
| GhostParser.DecodeTokenFailure | src/ghost_parser.rs:92-121 | whatever frame comes before it, a token decodes exactly when no present label is refused, and otherwise fails with the refusal of its first refused label in the order a to k |
| GhostParser.AcceptedDecodes | src/ghost_parser.rs:94-118 | an accepted value of each label parses as that label's number, vector, angle or event |
| GhostParser.DecodeTokenFields | src/ghost_parser.rs:92-118 | the decoded frame has the given index; each flag is set exactly when its letter occurs; the frame time is the `a` value / 10000; the vectors, angle deltas, event and bullet id are their labels' decoded values, or the defaults when the label is absent |
| GhostParser.DecodeTokenCumulative | src/ghost_parser.rs:59-126 | the running time, position, facing angle and pitch are the previous frame's values (zero for the first frame) plus this frame's deltas |
| GhostParser.WalkLength | src/ghost_parser.rs:53-131 | the walk yields at most one frame per token, and every token exactly when there is no failure |
| GhostParser.WalkDecoded | src/ghost_parser.rs:53-131 | frame k is the decode of token k, with frame k-1 as the previous frame and index idx + k |
| GhostParser.WalkFailure | src/ghost_parser.rs:53-131 | a failure is the decode failure of the token right after the last frame |
| GhostParser.DecodeFramesIndices | src/ghost_parser.rs:52-56 | frame k has index idx + k |
| GhostParser.DecodeFramesAccumulate | src/ghost_parser.rs:59-64 | from the start, frame k's running values are frame k-1's (zero for k = 0) plus frame k's deltas |
| GhostParser.DecodeFramesPrefixSums | src/ghost_parser.rs:59-126 | the decoded frames satisfy the prefix-sum invariant for time, position, facing angle and pitch |
| GhostParser.DecodeFramesFromStart | src/ghost_parser.rs:49-133 | a walk from the start: no failure exactly when every token decodes, indices 0, 1, ..., prefix sums, and a failure is the refusal of the first refused label of the token after the last frame |
| GhostParser.ParseFrames | src/ghost_parser.rs:49-133 | the ghost's frames become the old frames followed by `DecodeFrames` of the tokens, and the result is that walk's failure or success |
| GhostStats.CollectStats | src/ghost_stats.rs:8-40 | the loop reports the level name, the total time, and the fold of the frames; it does not modify the ghost |
| GhostStats.FoldSum | src/ghost_stats.rs:19 | the reported sum is the sum of all frame times |
| GhostStats.FoldMax | src/ghost_stats.rs:20-22 | the reported maximum is at least 0.0 and at least every frame time, and it is 0.0 or one of the frame times |
| GhostStats.FoldMin | src/ghost_stats.rs:23-25 | the reported minimum is at most 999.9 and at most every non-zero frame time, and it is 999.9 or one of the non-zero frame times |
| GhostStats.FoldJumps | src/ghost_stats.rs:26-29 | the jump count is the number of grounded-then-not-grounded adjacent pairs, and the flag records whether the last frame was grounded |
| GhostStats.TakeoffsBound | src/ghost_stats.rs:26-29 | the jump count is below the number of frames when there are any, and at most the number of grounded frames |
| GhostStats.FoldSumIsCumulative | src/ghost_stats.rs:19 | over frames with running totals, the reported sum is the last frame's cumulative time |
| GhostStats.StatsOfParsed | src/ghost_stats.rs:18-29 | over a frame list decoded without failure: one frame per token, the sum equals the last cumulative time, and the jumps are fewer than the frames |

## Left out

- Floating point: `f64` is modelled as exact `real`. The model has no IEEE rounding in `parse::<f64>`, in `/ 10000.0` or in the running sums, and no `inf`/`nan` inputs. `Text.ParseF64` accepts a sign, decimal digits with an optional point, and an optional exponent.
- `is_alphabetic` is ASCII letters only. Non-ASCII letters would also cut a frame value in the source.
- `HashMap` iteration order in `parse_frames`: the labels are applied in the fixed order a to k. Each label writes its own field, so the decoded frame is the same. Only the choice of which failure is reported, when two labels of one token fail, can differ from a given run.
- The unreachable `_` arm of the label `match` (src/ghost_parser.rs:119): the tokenizer only produces the labels a to k.
- `GhostTypes.Vector3.Add`: returns the sum instead of updating `self` in place. `Vector3` is a `Copy` value, and the source's one caller (src/ghost_parser.rs:124), modelled by `AddDeltas` and `Accumulate`, stores the result back into the frame.
- `GhostTypes.BulletType.FromTriggerEvent`: does not model the `i64` overflow of `i - 10` (or `i - 1000` in `GhostTypes.DiscardAbility.FromTriggerEvent`) for arguments within 10 (or 1000) of `i64::MIN`. The decoder only calls them with codes in 10..=20 and 1000..=1190.
- A panic is modelled as a `Failed(Panic(site))` outcome. The ghost keeps the state it had at that point; the end of the process is not modelled.
- Error message text: the errors are named values without the message strings.
- `Vec::with_capacity(47000)` in `Ghost::new`: capacity has no effect on the contents.
- The `println!` reporting of `collect_stats` (src/ghost_stats.rs:32-39): the values are returned as a `Stats` record instead.
- `src/main.rs` (reading standard input, printing, exit codes) is not part of this model.
- The generic `GhostParser.Walk` takes the token decoder as a parameter, and `GhostParser.DecodeFrames` is `Walk` with `DecodeToken`. This is a proof device; it changes nothing in what is decoded.
