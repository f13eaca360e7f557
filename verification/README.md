# Epidemic germ engine, modelled in Dafny

Epidemic is a cocos2d-html5 game. A beaker fills with germs. Each germ divides
into two half-size children when its division step comes round, grows a
little every step, and makes the level fail once a germ's body rises above
five sixths of the window height. This project models the game layer's germ
engine from `Resources/src/Epidemic.js`:

- the level's state (`initGameState`, `startLevel`, `createGerms`);
- germ creation (`createGerm`, `randomMultiplyTime`, `antibioticResistances`);
- the division pass (`multiplyGerms`), including its offset-splice removal loop;
- the growth pass (`growGerms`);
- the debug check `checkInvariant`;
- the per-step `update`, with its switch on the level's condition and its unscheduling.

Files and modules:

- `splice.dfy` (`JsArray`): JavaScript's `Array.prototype.splice` with its index clamping. Also the removal loop that splices the recorded indices out one at a time, each index shifted by the removals already done. It is proved equal to a plain filter.
- `germs.dfy` (`Germs`): the data model and germ creation.
- `population.dfy` (`Population`): the division pass, growth and `checkInvariant`.
- `game.dfy` (`Game`): `update`, the scheduler, and the invariant every reachable game keeps.

Outside inputs:

- Every `Math.random()` call is a value taken, in call order, from a caller-supplied stream `draws` of reals in [0, 1). Functions that draw return the unused remainder.
- A seed germ takes five draws: x offset, radius, division delay, Penicillin roll, Ciprofloxacin roll.
- A child germ takes one draw: its delay, because it inherits its parent's resistances.
- The physics step is represented by the body positions it leaves, one per germ in list order.
- The growth factor `Math.pow(2, 1/t)` is a function of the environment, `Env.growthRateForSteps`.

Notes on the code as written:

- The comment at `Resources/src/Epidemic.js:136` says `+1`, but line 137 adds 2. With a maximum draw of 180, every division delay lies in [2, 182].
- This file has no state-machine table, no germ-removal operation and no score update.

The division loop is `for (i in shapes)` while children are pushed onto the same array. The model visits the germs present when the loop starts. Those germs keep their indices while children are appended after them. The outcome is the same whether or not the appended children are visited:

- Every child is due at least two steps after its birth, so it would not divide in this pass.
- A child sits at its parent's height, so its overflow check repeats its parent's and cannot newly fail the level.

## Model

| member | source | states |
|---|---|---|
| JsArray.StartIndex | Resources/src/Epidemic.js:179 | splice's start index: a negative start counts from the end, and the result is clamped to [0, len] |
| JsArray.DeleteCount | Resources/src/Epidemic.js:179 | the delete count is clamped so that start plus count stays within the array and never exceeds the requested count; an in-range count is kept |
| JsArray.Splice | Resources/src/Epidemic.js:179 | the resulting length; a one-element in-range splice removes exactly that element and inserts the items in its place; a start past the end appends |
| JsArray.SpliceOut | Resources/src/Epidemic.js:177-181 | each turn of the removal loop removes at most one element, so the array keeps its length at most and loses at most one element per recorded index |
| JsArray.WithoutAppend | Resources/src/Epidemic.js:177-181 | filtering out listed positions distributes over concatenation |
| JsArray.WithoutNone | Resources/src/Epidemic.js:177-181 | when no listed index falls on a position of the list, filtering keeps the whole list |
| JsArray.WithoutAgree | Resources/src/Epidemic.js:177-181 | two index lists that agree on the list's positions filter it alike |
| JsArray.WithoutAtFirst | Resources/src/Epidemic.js:177-181 | when the smallest listed index hits position q, filtering keeps the prefix before q, drops element q and filters the tail by the other indices |
| JsArray.SpliceAtFirst | Resources/src/Epidemic.js:179-180 | one turn of the removal loop splices out exactly the element at the recorded index minus the removals done so far |
| JsArray.SpliceOutShifted | Resources/src/Epidemic.js:177-181 | with k removals done, the remaining ascending indices still name the right elements, so the loop leaves the cleaned prefix followed by the filtered rest |
| JsArray.SpliceOutRemovesExactly | Resources/src/Epidemic.js:177-181 | splicing out an ascending list of original indices, each shifted by the removals already done, removes exactly those elements and leaves the appended children untouched |
| Germs.JsRound | Resources/src/Epidemic.js:137 | Math.round returns an integer within one half of its argument |
| Germs.RandomMultiplyTime | Resources/src/Epidemic.js:135-138 | every division delay drawn lies in [2, 182] |
| Germs.MultiplyTimeAttained | Resources/src/Epidemic.js:135-138 | every delay in [2, 182] comes from some draw in [0, 1), so the bounds are tight |
| Germs.ChanceTable | Resources/src/Epidemic.js:97-106 | the chance table has exactly the enumerated antibiotics as keys, each with the given chance |
| Germs.RollResistances | Resources/src/Epidemic.js:140-146 | one entry per enumerated antibiotic; the k-th is resistant exactly when the k-th draw is below that antibiotic's chance |
| Germs.AntibioticResistances | Resources/src/Epidemic.js:140-146 | Penicillin is rolled with the first draw and Ciprofloxacin with the second, each resistant iff the draw is below its chance |
| Germs.InitGameState | Resources/src/Epidemic.js:97-109 | a fresh level: score 0, step 0, no germs, next id 0, continuing, and chance 0.10 for each antibiotic |
| Germs.CreateGerm | Resources/src/Epidemic.js:205-223 | appends one germ and changes nothing else: the next id, created now, due its delay from now, delay in [2, 182], the matching growth rate, the given radius and position, given resistances inherited or else rolled; it consumes 1 draw, or 3 when it rolls |
| Germs.SeedSpec | Resources/src/Epidemic.js:243-245 | a seed is placed at half the window height and its resistances are left to be rolled |
| Germs.SeedSpecBounds | Resources/src/Epidemic.js:243-245 | a seed's x lies in the middle half of the window and its radius between 0.8 and 1.2 times the average germ size |
| Germs.SeedGerm | Resources/src/Epidemic.js:243-245 | the germ built from five draws: created now with the given id, at half height, with a positive radius in a window of positive height; its delay comes from the third draw, its resistances from the fourth and fifth, and its radius and x from the first two |
| Germs.Seeds | Resources/src/Epidemic.js:240-247 | the reference for n seeds: n germs numbered consecutively after the last id, each a seed of the current step |
| Germs.AddSeed | Resources/src/Epidemic.js:242-245 | one turn of the loop appends exactly the seed germ built from the first five draws (x, radius, delay, Penicillin and Ciprofloxacin rolls), bumps the next id, consumes five draws and changes nothing else |
| Germs.CreateGerms | Resources/src/Epidemic.js:240-247 | the germs become the existing ones followed by the n seeds of the reference, the k-th from the k-th block of five draws; the next id grows by n; nothing else changes |
| Germs.StartLevel | Resources/src/Epidemic.js:249-252 | a started level has score 0, step 0, condition continuing, exactly the n reference seeds with ids 1..n, next id n, every germ due at step 2 or later, and 5n draws consumed |
| Population.DueSurvivorsCount | Resources/src/Epidemic.js:163-170 | the due germs and the survivors together number exactly the germs of the list |
| Population.SurvivorsAreKept | Resources/src/Epidemic.js:177-181 | survivors are germs of the list, none due, and they keep ascending ids ascending |
| Population.DueAreDue | Resources/src/Epidemic.js:163 | the divided germs are germs of the list whose division step is the current step |
| Population.DueIndices | Resources/src/Epidemic.js:163-170 | the recorded indices ascend, lie within the list, and contain an index exactly when the germ there is due |
| Population.WithoutDueIndices | Resources/src/Epidemic.js:170-181 | filtering out the recorded indices leaves exactly the germs that are not due |
| Population.DivideOne | Resources/src/Epidemic.js:165-173 | a due germ gets two children appended with the next two ids, each taking one delay draw |
| Population.ChildSpec | Resources/src/Epidemic.js:165-173 | a child's options: half its parent's radius, its parent's height and resistances, and the parent's x, nudged right by 1/500 of the width for the second child |
| Population.OffspringFacts | Resources/src/Epidemic.js:165-173 | the children of the k-th divided germ sit at 2k and 2k+1 with ids lastId+2k+1 and lastId+2k+2; each has half the parent's radius, the parent's resistances and height, and a fresh delay |
| Population.OffspringFresh | Resources/src/Epidemic.js:163-173 | children get consecutive fresh ids and are due at least two steps later, so none divides in the pass that made it |
| Population.Checked | Resources/src/Epidemic.js:158-160 | the overflow check fails the level iff the germ is above five sixths of the height or the level had already failed; it can only set the condition to failed, and changes nothing else |
| Population.DivideFrom | Resources/src/Epidemic.js:152-175 | the division loop only appends: existing germs, the step, the score and the chances are unchanged |
| Population.SkipStep | Resources/src/Epidemic.js:152-163 | a germ that is not due adds nothing to the pass except its overflow check |
| Population.DivideStep | Resources/src/Epidemic.js:163-173 | a due germ contributes its two children, its index and two draws to the pass |
| Population.DivideFromSpec | Resources/src/Epidemic.js:152-175 | the loop appends exactly the offspring of the due germs, records exactly their indices, consumes two draws per division, and fails the level iff some germ overflows |
| Population.MultiplyGerms | Resources/src/Epidemic.js:148-183 | after the pass the germs are the survivors in order followed by two children per divided germ; the next id grows by two per division; the level is failed iff some germ is above five sixths of the height and is otherwise unchanged; step, score and chances are unchanged |
| Population.MultiplyGermsCount | Resources/src/Epidemic.js:148-183 | the germ count grows by exactly the number of divided germs |
| Population.GrowFrom | Resources/src/Epidemic.js:187-202 | the in-place splice replacement from index i leaves earlier germs alone and grows every later one |
| Population.GrowGerms | Resources/src/Epidemic.js:185-203 | growth keeps the length and order; each germ keeps its id, schedule, resistances and position, and its radius is multiplied by its growth rate |
| Population.CheckFrom | Resources/src/Epidemic.js:228-237 | the check loop from index i fails the level iff some later germ's division step has passed, and changes nothing else |
| Population.CheckInvariant | Resources/src/Epidemic.js:226-238 | the level is failed iff some germ's division step has passed, and is otherwise unchanged |
| Game.Move | Resources/src/Epidemic.js:255 | the physics step puts each germ at its given position and changes nothing else about it |
| Game.MoveOverflow | Resources/src/Epidemic.js:255-258 | after the physics step some germ overflows iff some position physics left is above five sixths of the height |
| Game.Update | Resources/src/Epidemic.js:254-275 | one step: the step count goes up by one; the germs become the survivors and offspring of the moved germs, grown exactly when the level is still continuing; it continues iff it was continuing and nothing overflowed; a failed level is unscheduled |
| Game.Tick | Resources/src/Epidemic.js:254-275 | update runs only while scheduled; a level never returns to continuing; a failed level stays failed and is unscheduled |
| Game.Start | Resources/src/Epidemic.js:80-89 | the layer schedules update and then starts the level (with one germ in the source, any n here): scheduled, continuing, n seed germs, the state startLevel leaves, and 5n draws consumed |
| Game.StartInv | Resources/src/Epidemic.js:249-252 | a freshly started level meets the running invariant: every germ is due strictly later than the current step |
| Game.SurvivorsOk | Resources/src/Epidemic.js:163-181 | a survivor was due at the current step or later and was not due now, so it is due strictly later |
| Game.OffspringOk | Resources/src/Epidemic.js:165-173 | children are in good standing at their birth step, with a positive radius and consecutive fresh ids |
| Game.DivisionOk | Resources/src/Epidemic.js:148-183 | the division pass keeps every germ due strictly after the new step, with ids ascending |
| Game.UpdateInv | Resources/src/Epidemic.js:254-275 | a scheduled update keeps the invariant, no germ is past its division step afterwards, and so checkInvariant after an update never fires |
| Game.TickInv | Resources/src/Epidemic.js:226-238 | every tick keeps the invariant, leaves no germ past its division step, and checkInvariant never fails a reachable level |

## Left out

- The user interface: labels, the beaker's static walls, touch and mouse events, the scene, and the physics debug node. They hold no state the germ engine reads.
- The Chipmunk physics engine. Its step is represented by the positions it leaves (`Game.Move`), and bodies and shapes are not modelled apart from a germ's radius and position.
- Floating point. Positions, radii and chances are exact reals. The growth factor `growthRateForSteps` (`Math.pow(2, 1/t)`) is an environment function that is only assumed positive.
- `resistanceString` formats a percentage label. It is display only.
- `cc.log` and `cc.logObject` are debug output with no effect on state.
- The commented-out call of `checkInvariant` in `update`. The model shows the call would never fire.
- Scoring and `resistanceIncrease`. The code marks the score update as unfinished and never changes the score.
- The success and antibiotic-unlocked conditions. No code path sets them, and `update`'s success branch is empty. They appear only as the "anything else" case of the switch.
- The values 50 and 200 of the `Antibiotics` table. Only its key order is read.
- The unused `startingGerms` argument of `initGameState`.
- The shared identity of the resistances object that both children receive. The model copies it as a value, and nothing in the engine mutates it.
- Game.Update and Game.Tick: these require at least two draws per germ. This is a finite stand-in for the endless stream that `Math.random` provides, and a pass needs only two per divided germ.
