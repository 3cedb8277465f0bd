# running-dinner, modelled in Dafny

A running dinner is an event where every participating group (a household or a team) hosts one
course at home and visits other groups for the other courses. The Python package plans one.

1. It geocodes the groups' addresses.
2. It fetches a walking-time matrix between all their locations.
3. It builds a mixed-integer program in PuLP:
   - every group visits exactly one host per main course;
   - every host receives three groups, with penalties for fewer or more;
   - two groups should meet at most once, with a penalty for each further meeting;
   - the longest walk of every leg is minimised.
4. It decodes the solver's values into a host list per group.
5. It writes that list as a `;`-separated CSV file.

This project models the core of that package in Dafny 4.11 and proves what the core promises.

- **Locations** (`locations.dfy`, model/Location.py):
  - Equality and hashing of Locations by coordinates, against any other Python object.
  - The decoding of the geocoder's JSON reply: an `"error"` key raises; otherwise `[lon, lat]` is reversed.
- **Groups** (`groups.dfy`, model/Group.py):
  - The Group constructor.
  - `from_dict`, a loop that gives every group whose address resolves to the same coordinates the first-seen Location object.
  - `get_locations`, which lists the distinct locations.
- **StableSort** (`sorting.dfy`):
  - Python's stable sort by a key, as a functional specification `SortBy`.
  - An in-place insertion sort on an `array` proved equal to it. It stands for `addresses.sort` in `__init__` (line 47).
  - Lemmas on sortedness, permutation, stability and idempotence, which the decoding at line 195 uses.
- **Travel** (`travel_times.dfy`, model/TravelTimes.py):
  - The JSON body of the matrix request.
  - The nested loop that fills the `travel_times` dict and tracks `max_travel_time` and `max_pair`, as a method with loop invariants.
- **Instance** (`instance.dfy`, `DinnerInstance.__init__`):
  - The event-count check, the in-place sort of the caller's list, and the bucketing loop into `hosts_by_events` with its `KeyError`.
  - The empty-round check, the party location and the location list.
  - What every constructed instance satisfies (`Valid`).
- **Linear**, **Formulation**, **Emit** (`DinnerInstance.solve`, lines 97–183):
  - PuLP's variables, affine expressions and constraints as data.
  - Every constraint family and the objective as functions in loop order.
  - The loops that declare the variable dicts and add the rows, as methods proved to produce exactly those functions.
- **Meaning** (`meaning.dfy`): for 0/1 values, what each row and each whole family means when satisfied:
  - one host per round;
  - self-hosting;
  - the guest count `3 - z1 + z2`, hence two to four guests;
  - meeting detection and the encounter cap;
  - the `tt·(a+b-1) ≤ t` linearisation;
  - the first and last legs.
- **Solve** (`solve.dfy`):
  - What `solve` reads from an instance.
  - The solver-selection rule as written, and as the docstring describes it.
  - The decoding of line 195, proved to give each group one host per main course, in course order, with itself at its own course.
  - `solve` as one method over an abstract solver run.
- **Csv** (`csv.dfy`, `save_csv`):
  - The text written, as a method with a loop.
  - A reader for that format and the round trip for quote- and newline-free names.
  - What the file of a decoded solution reads back as.
  - That nothing is escaped.
- **Findings** (`findings.dfy`): the two places in the problem where the program as written differs from what it evidently intends, each with its corrected version (see "## Findings"). The solver-selection finding sits beside `SelectSolver` in `solve.dfy`.

How the model represents the program:
- Groups are named by their position in the group list. Group has no `__eq__`, so two Group objects are different dict keys even when their fields agree; positions capture that.
- A Location carries an `id` standing for its object identity. This lets the model state which groups share one Location object.
- Coordinates are an abstract type with equality only.
- Travel times are `nat` seconds. Solver values are reals, with `x > 0.99` read as the 0/1 test of line 195.
- The geocoder, the matrix service and the solver run are function parameters.

The model follows the code as written. In three places the code does not do what its own words say:
- The docstring of `solve` says "additional penalties apply if the same groups meet more than once" (model/DinnerInstance.py:75). Line 123 declares `z[3, g1, g2]` an `LpInteger` with no lower bound, so a pair that never meets can take -1 and earn a reward.
- The comment on line 153 says "each group travels to the party location". The row of lines 154–156 sums the walks of all last-round hosts to the party, with no `x[group, host]` factor, so it does not depend on the host the group visits.
- The docstring says the requested solver is used "if a specific solver is requested and available in PuLP" (lines 77–78). Line 189 tests `prioritized_solver.available` without calling it.

These members model the code as written, and the rest of the model uses them: `Formulation.DomainOf`, `Formulation.FinalRow`, `Formulation.Constraints`, `Meaning.Feasible`, `Emit.BuildProblem`, `Solve.SelectSolver` and `Solve.SolveInstance`. The `…Corrected` members (`Formulation.DomainOfCorrected`, `Formulation.FinalRowCorrected`, `Formulation.TravelRowsCorrected`, `Formulation.ConstraintsCorrected`, `Findings.FeasibleCorrected`, `Solve.SelectSolverCorrected`) state what the words intend. All three are listed under "## Findings".

## Model

| member | source | states |
|---|---|---|
| Locations.Equals | model/Location.py:32-35 | `__eq__`: another Location with equal lon and equal lat, False for any other object; its meaning is stated by the two lemmas below |
| Locations.Hash | model/Location.py:44 | `__hash__`: the tuple hash of (lon, lat), with the tuple hash a parameter; `EqualLocationsHashAlike` states what it guarantees |
| Locations.SameIffEqualCoordinates | model/Location.py:32-34 | two Locations are equal exactly when both their lon and their lat are equal |
| Locations.NotEqualToOtherTypes | model/Location.py:32-35 | a Location never equals an object of another type |
| Locations.SameIsEquivalence | model/Location.py:33-34 | equality of Locations is reflexive, symmetric and transitive |
| Locations.EqualLocationsHashAlike | model/Location.py:37-44 | equal Locations have equal hashes, whatever the tuple hash function is |
| Locations.Reversed | model/Location.py:84 | `reversed` gives the same elements in the opposite order |
| Locations.DecodeResponse | model/Location.py:80-85 | for the reply shapes modelled: an "error" key raises RuntimeError with the service's message; no feature raises IndexError; it succeeds exactly when the first feature holds two numbers, and then gives Coordinates(lat, lon) from the feature's [lon, lat] |
| Locations.FromAddressErrors | model/Location.py:67-85 | for the reply shapes modelled, a failed `from_address` raises RuntimeError, IndexError or TypeError, never a KeyError or ValueError |
| Locations.DecodeLonLatRoundTrip | model/Location.py:83-85 | a reply carrying a point in the service's [lon, lat] order decodes to that same point |
| Groups.NewGroup | model/Group.py:11-22 | the constructor stores name, location and host event id unchanged |
| Groups.FirstWith | model/Group.py:61-64 | the Location stored for a coordinate pair has those coordinates and is the first in the list that has them |
| Groups.Lookups | model/Group.py:60-61 | one geocoding result per address tuple, in tuple order, each Location a fresh object |
| Groups.RegistryHoldsFirstSeen | model/Group.py:62-63 | the `locations` dict has exactly one key per distinct coordinate pair met, and holds the first Location met with it |
| Groups.CanonicalGroups | model/Group.py:58-65 | the loop builds one group per tuple |
| Groups.CanonicalGroupsShareFirstSeen | model/Group.py:60-64 | every built group keeps its tuple's name and host event id and gets the first-seen Location with its coordinates |
| Groups.CanonicalGroupsStep | model/Group.py:60-64 | one more tuple adds its coordinates to the dict when they are new, and appends one group holding the dict's Location |
| Groups.FromDict | model/Group.py:58-65 | the loop fails exactly when some address does not geocode, and then with the first failure's exception; on success it returns the canonical groups and the dict of first-seen Locations |
| Groups.FromDictMeaning | model/Group.py:58-65 | one group per tuple in order, with name and host event id copied; each has the first-seen Location; the dict's size is the number of distinct coordinates |
| Groups.SharedIffEqualCoordinates | model/Group.py:61-64 | two groups share one Location object exactly when their addresses resolved to equal coordinates |
| Groups.LocationsOf | model/Group.py:78 | the groups' locations, in group order |
| Groups.GetLocations | model/Group.py:78 | the distinct locations, one per coordinate pair, in first-seen order; the lemmas below state what holds in any order |
| Groups.GetLocationsFromFirstOccurrences | model/Group.py:78 | every listed Location is the location of a group that is the first with its coordinates |
| Groups.GetLocationsDistinct | model/Group.py:78 | every listed Location is some group's location, and no two listed Locations are equal |
| Groups.GetLocationsCoversGroups | model/Group.py:78 | every group's location equals some listed Location |
| Groups.GetLocationsKeepsFirst | model/Group.py:78 | each listed Location is the first group location with its coordinates, as a Python set keeps the first of equal elements |
| Groups.GetLocationsOfCanonical | model/Group.py:78 | for groups built by `from_dict`, each group's very Location object is listed |
| StableSort.Insert | model/DinnerInstance.py:47 | inserting one element adds one to the length |
| StableSort.SortBy | model/DinnerInstance.py:47 | sorting keeps the length |
| StableSort.InsertPermutes | model/DinnerInstance.py:47 | an insertion is a permutation of the list plus the new element |
| StableSort.InsertSorted | model/DinnerInstance.py:47 | inserting into a sorted list keeps it sorted |
| StableSort.InsertStable | model/DinnerInstance.py:47 | an insertion keeps the order among the elements of each key |
| StableSort.SortBySorted | model/DinnerInstance.py:47 | the sorted list is sorted by the key, is a permutation of the input, and keeps the input order among equal keys |
| StableSort.SortBySortedIsIdentity | model/DinnerInstance.py:195 | sorting a list that is already sorted changes nothing |
| StableSort.OnePerKey | model/DinnerInstance.py:195 | a sorted list with keys in 1..r and exactly one element per key has length r and key m+1 at position m |
| StableSort.InsertAt | model/DinnerInstance.py:47 | an element goes in just after the last element whose key is at most its own, before a run of larger keys |
| StableSort.InsertInPlace | model/DinnerInstance.py:47 | one in-place step moves `a[i]` to its stable place in the sorted prefix and leaves the rest of the array alone |
| StableSort.SortPrefixStep | model/DinnerInstance.py:47 | the sort of one more element is the sort of the prefix with that element inserted |
| StableSort.SortInPlace | model/DinnerInstance.py:47 | the array ends as the stable sort of its old contents |
| Travel.RequestBody | model/TravelTimes.py:47-51 | the body lists every coordinate as (lon, lat) in list order, the destinations 0..n-1 and the metric "duration" |
| Travel.RequestBodyRoundTrip | model/TravelTimes.py:47-48 | swapping each (lon, lat) pair of the body back gives the coordinates sent |
| Instance.Coordinates | model/TravelTimes.py:21 | the coordinates of the locations, in list order |
| Travel.LastIndex | model/TravelTimes.py:26-29 | the last list entry equal to a Location, the one whose row and column the dict keeps |
| Travel.RowOfMeaning | model/TravelTimes.py:28-29 | the inner dict has one key per distinct column Location, holding the entry of the last equal column |
| Travel.TableOfMeaning | model/TravelTimes.py:26-29 | the outer dict has one key per distinct row Location, holding the inner dict of the last equal row |
| Travel.TableAt | model/TravelTimes.py:26-29 | every pair of listed Locations has an entry, read from the last equal row and the last equal column |
| Travel.TableKeys | model/TravelTimes.py:26-29 | the table has one row per distinct Location, and each row one entry per distinct Location |
| Travel.Build | model/TravelTimes.py:21-32 | for the answers modelled (every duration a number), an empty list or a short matrix fails with IndexError and nothing else fails; on success `Measures` holds: the table is the keyed matrix, the maximum is at least every entry and equals the entry at `max_pair`, the first entry in row-major order to reach it |
| Travel.DistinctLocationsTable | model/TravelTimes.py:26-29 | with pairwise-distinct Locations, `travel_times[locations[i]][locations[j]]` is `matrix[i][j]` |
| Travel.LaterDuplicateWins | model/TravelTimes.py:27-29 | when two entries are equal Locations, the later one's row replaces the earlier one |
| Instance.Bucket | model/DinnerInstance.py:52-54 | a bucket holds positions of groups that host its round |
| Instance.BucketMeaning | model/DinnerInstance.py:52-54 | a bucket lists every host of its round exactly once, in group-list order |
| Instance.BucketsAt | model/DinnerInstance.py:52-54 | the dict has exactly the keys 1..E-2, each holding its round's bucket |
| Instance.BucketsStep | model/DinnerInstance.py:53-54 | one step appends the group to the bucket of its round and changes no other bucket |
| Instance.EmptyBuckets | model/DinnerInstance.py:52 | the dict starts with an empty list for each main round |
| Instance.MissingKey | model/DinnerInstance.py:53-54 | a group whose round has no key, after groups that all had one, is the first outside the rounds and raises its KeyError |
| Instance.FillBuckets | model/DinnerInstance.py:52-54 | the loop fails exactly when some host event id lies outside 1..E-2, with KeyError for the first one; otherwise it returns the buckets |
| Instance.RoundsBelowMeaning | model/DinnerInstance.py:53-54 | the prefix check used by the loop means every group so far hosts a main round |
| Instance.BucketGroups | model/DinnerInstance.py:52-57 | KeyError exactly when an id is outside the rounds, naming the first such id; otherwise success exactly when every round has a host; the ValueError names the event of the first empty round |
| Instance.Prefixed | model/DinnerInstance.py:51 | each tuple reaches `from_dict` with the address prefixed by the city address and ", ", name and id unchanged |
| Instance.WithParty | model/DinnerInstance.py:59-61 | the location list: `get_locations`, then the party location when there is one |
| Instance.PartyLookup | model/DinnerInstance.py:58 | a party Location exactly when a party address is given, as the next Location object; a failure is one of the errors `from_address` raises |
| Instance.VisitedCovered | model/DinnerInstance.py:59-62 | the table built from `get_locations` plus the party covers every group's location and the party location |
| Instance.MessagesDiffer | model/DinnerInstance.py:44-57 | the ValueError of line 45 and that of line 57 have different messages, so `NewInstance` can tell them apart |
| Instance.GroupsKeepOrder | model/DinnerInstance.py:47-51 | the groups keep the sorted tuples' ids and order, so they are sorted by host event id |
| Instance.Locate | model/DinnerInstance.py:58-62 | a failed party lookup fails with its error; otherwise it succeeds exactly when the service's answer for the location list fits, fails with IndexError when it does not, and returns the looked-up party, the list `get_locations` plus the party, and the travel times `Measures` gives for that answer; the table covers every group and the party |
| Instance.Valid | model/DinnerInstance.py:44-62 | what a constructed instance satisfies: at least three events, every group hosting a main round, groups sorted by round, one non-empty bucket per main round, the location list, a table covering every group and the party |
| Instance.AssembledValid | model/DinnerInstance.py:44-62 | a proof step that unfolds `Valid`: an instance whose fields meet each of its conditions is valid; `Assemble` proves that the fields `__init__` computes meet them |
| Instance.HostsCoverGroups | model/DinnerInstance.py:52-54 | on a valid instance each group is listed under the round it hosts, every listed position is a group of that round, and no list repeats a group |
| Instance.BucketEmptyIff | model/DinnerInstance.py:55-57 | a round's bucket is empty exactly when no sorted tuple names that round |
| Instance.TuplesMatchGroups | model/DinnerInstance.py:51-57 | the bucket checks on the groups say the same as on the tuples they came from |
| Instance.LookupFailureOutcome | model/DinnerInstance.py:48-51 | a failed group lookup ends `__init__` with the first failure's error; for the reply shapes modelled it is never a KeyError or ValueError |
| Instance.BucketFailureOutcome | model/DinnerInstance.py:52-57 | a failed bucket check ends `__init__` with the KeyError of the first tuple outside the rounds, or the ValueError of the first round no tuple names |
| Instance.LocateOutcome | model/DinnerInstance.py:58-62 | a proof step that unfolds the last branches of `AssembleOutcome`: a result that is the party lookup's error, an IndexError, or the instance with every field as set is the outcome; `Locate` and `Assemble` prove that the result is one of these |
| Instance.Assemble | model/DinnerInstance.py:48-62 | the outcome on the sorted tuples, in the code's order: the first failed lookup's error; else the KeyError of the first tuple outside the rounds; else the ValueError of the first round no tuple names; else the party lookup's error; else IndexError for an answer too small; else a valid instance with every field as `__init__` sets it |
| Instance.NewInstance | model/DinnerInstance.py:41-62 | a failed city lookup fails with its error and leaves the list unsorted; the "at least one main event" ValueError comes exactly when the city is found and there are fewer than three events; otherwise the list is stably sorted in place and the outcome is that of `Assemble` on it; on success a valid instance |
| Formulation.Leg0Row | model/DinnerInstance.py:138-140 | the first-leg row Σ tt[g][h]·x[g, h] ≤ t[0] over the first round's hosts; `Meaning.Leg0Meaning` states its meaning |
| Formulation.LinkRow | model/DinnerInstance.py:145 | the row tt[h1][h2]·(x[g, h1] + x[g, h2] - 1) ≤ t[e]; `Meaning.LinkRowMeaning` states its meaning |
| Formulation.FinalRow | model/DinnerInstance.py:146-156 | the last-leg row as written: home with the x factor, or the party sum with none; `Meaning.FinalRowMeaning` states its meaning |
| Formulation.FinalRowCorrected | model/DinnerInstance.py:152-156 | the party leg as line 153 describes it, weighted by x like the home leg; `Findings.FinalRowCorrectedMeaning` states its meaning |
| Formulation.RoundRow | model/DinnerInstance.py:161-163 | Σ x[g, h] == 1 over the round's hosts; `Meaning.RoundRowMeaning` states its meaning |
| Formulation.SelfRow | model/DinnerInstance.py:167 | x[g, g] == 1; `Meaning.SelfRowMeaning` states its meaning |
| Formulation.CapacityRow | model/DinnerInstance.py:171 | Σ_g x[g, h] == 3 - z[1, h] + z[2, h]; `Meaning.CapacityRowMeaning` states its meaning |
| Formulation.MeetRow | model/DinnerInstance.py:177 | x[g1, h] + x[g2, h] ≤ 1 + y[g1, g2, h]; `Meaning.MeetRowMeaning` states its meaning |
| Formulation.CapRow | model/DinnerInstance.py:183 | Σ_h y[g1, g2, h] ≤ 1 + z[3, g1, g2]; `Meaning.CapRowMeaning` states its meaning |
| Formulation.Constraints | model/DinnerInstance.py:136-183 | every row `solve` adds, as written and in loop order; `Meaning.SatConstraints` states what satisfying it means |
| Formulation.TravelRowsCorrected | model/DinnerInstance.py:136-156 | the travel rows with the corrected party leg |
| Formulation.ConstraintsCorrected | model/DinnerInstance.py:136-183 | every row with the corrected party leg |
| Formulation.DomainOf | model/DinnerInstance.py:98-123 | the declared categories and bounds as written, z[3, ·, ·] an integer with no bound; `Meaning.DomainsGive` states what they give |
| Formulation.DomainOfCorrected | model/DinnerInstance.py:75 | the same with z[3, ·, ·] bounded below by 0 |
| Formulation.Objective | model/DinnerInstance.py:130-133 | Σ t plus the three weighted penalty sums; `Findings.ObjectiveCoef` states the encounter weight |
| Formulation.PairPenaltyRow | model/DinnerInstance.py:133 | the encounter-penalty terms of g1 are p·z[3, g1, g2] for each later g2, in order |
| Emit.DeclareX | model/DinnerInstance.py:98-101 | one binary x[g, h] for every group and host, and nothing else |
| Emit.DeclareT | model/DinnerInstance.py:104-106 | one continuous t[e] with lower bound 0 for every leg 0..E-2 |
| Emit.DeclareY | model/DinnerInstance.py:109-113 | one binary y[g1, g2, h] for every pair g1 < g2 and host |
| Emit.DeclareZ | model/DinnerInstance.py:116-123 | binaries z[1, h] and z[2, h] for every host and one integer z[3, g1, g2] with no lower bound for every pair g1 < g2 |
| Emit.DeclareVariables | model/DinnerInstance.py:97-123 | exactly the declared variables, each with its domain as written |
| Emit.EmitLinks | model/DinnerInstance.py:142-145 | the loops add the link rows of one group and round in loop order |
| Emit.EmitTravelOf | model/DinnerInstance.py:136-156 | the loops add one group's travel rows in loop order, the last leg as written |
| Emit.EmitTravel | model/DinnerInstance.py:136-156 | the loops add every group's travel rows in loop order, the last legs as written |
| Emit.EmitRounds | model/DinnerInstance.py:159-163 | the loops add one round row per group and round |
| Emit.EmitSelf | model/DinnerInstance.py:166-167 | the loop adds x[g, g] == 1 for every group |
| Emit.EmitCapacity | model/DinnerInstance.py:170-171 | the loop adds one capacity row per host |
| Emit.EmitMeetOf | model/DinnerInstance.py:175-177 | the loops add the meet rows of g1 with each later partner and host |
| Emit.EmitMeet | model/DinnerInstance.py:174-177 | the loops add the meet rows of every pair and host |
| Emit.EmitCapsOf | model/DinnerInstance.py:181-183 | the loops add the cap row of g1 with each later partner, once per host |
| Emit.EmitCaps | model/DinnerInstance.py:180-183 | the loops add the cap rows of every pair, each once per host |
| Emit.BuildProblem | model/DinnerInstance.py:97-183 | the problem holds exactly the declared variables with their domains as written, the objective, and every row as written in loop order |
| Linear.SatAppend | model/DinnerInstance.py:136-183 | the rows added by `prob +=` hold exactly when each part holds, so their order does not matter |
| Meaning.PickedFrom | model/DinnerInstance.py:195 | the hosts whose x exceeds 0.99 are at most the hosts looked at |
| Meaning.VisitSum | model/DinnerInstance.py:161-163 | for 0/1 values, the round row's sum counts the picked hosts |
| Meaning.GuestSum | model/DinnerInstance.py:171 | for 0/1 values, the capacity row's sum counts the guests |
| Meaning.FlaggedSum | model/DinnerInstance.py:183 | for 0/1 values, the cap row's sum counts the set y's |
| Meaning.NonePicked | model/DinnerInstance.py:161-163 | no host is picked exactly when every x of the round is 0 |
| Meaning.ExactlyOne | model/DinnerInstance.py:161-163 | one host is picked exactly when one x of the round is 1 and the others are 0 |
| Meaning.ChosenHost | model/DinnerInstance.py:161-163 | with one host picked, there is a position whose x is 1 while all others are 0 |
| Meaning.RoundRowMeaning | model/DinnerInstance.py:161-163 | the round row holds exactly when the group has exactly one host in that round |
| Meaning.SelfRowMeaning | model/DinnerInstance.py:167 | the self row holds exactly when x[g, g] is 1 |
| Meaning.CapacityRowMeaning | model/DinnerInstance.py:171 | the capacity row holds exactly when the guest count is 3 - z[1, h] + z[2, h] |
| Meaning.Attendance | model/DinnerInstance.py:169-171 | with binary z's, a satisfied capacity row means two to four guests |
| Meaning.AttendanceIff | model/DinnerInstance.py:169-171 | a guest count from two to four is exactly what some binary z[1, h], z[2, h] can satisfy |
| Meaning.MeetRowMeaning | model/DinnerInstance.py:177 | for 0/1 values, the meet row holds exactly when both groups visiting h forces y[g1, g2, h] to 1 |
| Meaning.CapRowMeaning | model/DinnerInstance.py:183 | the cap row holds exactly when the set y's of the pair number at most 1 + z[3, g1, g2] |
| Meaning.SharedFlagged | model/DinnerInstance.py:173-177 | with the meet rows holding, the shared hosts are at most the set y's |
| Meaning.EncounterCap | model/DinnerInstance.py:173-183 | with meet and cap rows holding, two groups share at most 1 + z[3, g1, g2] hosts |
| Meaning.LinkRowMeaning | model/DinnerInstance.py:145 | for binary x's and t ≥ 0, `tt·(a+b-1) ≤ t` holds exactly when visiting both hosts implies tt ≤ t |
| Meaning.Leg0Meaning | model/DinnerInstance.py:138-140 | with one first-round host chosen, the first leg bounds t[0] by the walk from home to that host |
| Meaning.FinalRowMeaning | model/DinnerInstance.py:146-156 | with one last-round host chosen, the row as written holds exactly when t[E-2] is at least the walk from that host home, or, with a party, the sum of every last-round host's walk to the party |
| Meaning.SatSelfRows | model/DinnerInstance.py:166-167 | the self rows hold exactly when every group visits itself |
| Meaning.SatRoundRowsOf | model/DinnerInstance.py:160-163 | one group's round rows hold exactly when each of them holds |
| Meaning.SatRoundRows | model/DinnerInstance.py:159-163 | the round family holds exactly when every group's row of every round holds |
| Meaning.SatCapacityRows | model/DinnerInstance.py:170-171 | the capacity family holds exactly when every host's row holds |
| Meaning.SatMeetRowsAt | model/DinnerInstance.py:176-177 | one pair's meet rows hold exactly when its row for each host holds |
| Meaning.SatMeetRowsOf | model/DinnerInstance.py:175-177 | g1's meet rows hold exactly when those of each later partner hold |
| Meaning.SatMeetRows | model/DinnerInstance.py:174-177 | the meet rows of the first groups hold exactly when each group's hold |
| Meaning.SatMeetRowsAll | model/DinnerInstance.py:174-177 | the meet family holds exactly when the row of every pair and host holds |
| Meaning.SatCapRowsRepeated | model/DinnerInstance.py:182-183 | the cap row added once per host holds exactly when the row holds once, so the repetition does not change the satisfying set |
| Meaning.SatCapRowsOf | model/DinnerInstance.py:181-183 | g1's cap rows hold exactly when each later partner's copies hold |
| Meaning.SatCapRows | model/DinnerInstance.py:180-183 | the cap rows of the first groups hold exactly when each group's hold |
| Meaning.SatCapRowsAll | model/DinnerInstance.py:180-183 | the cap family holds exactly when the row of every pair holds |
| Meaning.SatLinkRowsTo | model/DinnerInstance.py:144-145 | the link rows from one host hold exactly when the row to each next-round host holds |
| Meaning.SatLinkRowsFrom | model/DinnerInstance.py:143-145 | the link rows of one round hold exactly when those from each of its hosts hold |
| Meaning.SatLinksOf | model/DinnerInstance.py:143-145 | the link rows of one round hold exactly when the row of every consecutive host pair holds |
| Meaning.SatLinkRows | model/DinnerInstance.py:142-145 | the link rows of the first rounds hold exactly when each round's hold |
| Meaning.SatLinksAll | model/DinnerInstance.py:142-145 | every link row of a group holds exactly when every consecutive host pair of every round satisfies its row |
| Meaning.SatTravelRowsOf | model/DinnerInstance.py:137-156 | a group's travel rows hold exactly when its first leg, every link and its last leg hold |
| Meaning.SatTravelRows | model/DinnerInstance.py:136-156 | the travel family holds exactly when every group's travel rows hold |
| Meaning.SatOtherRows | model/DinnerInstance.py:159-183 | the rows after the travel rows hold exactly when one host per round, self-hosting, capacity, meeting and cap each hold |
| Meaning.SatConstraints | model/DinnerInstance.py:136-183 | the whole problem as written holds exactly when each family holds: travel, one host per round, self-hosting, capacity, meeting, cap |
| Meaning.DomainsGive | model/DinnerInstance.py:101-123 | values within the declared domains are 0/1 for x, y, z1 and z2, non-negative for t, and integers for z3 |
| Meaning.FeasibleRounds | model/DinnerInstance.py:159-167 | on a solution every group has exactly one host per round and visits itself |
| Meaning.FeasibleAttendance | model/DinnerInstance.py:170-171 | on a solution every host has 3 - z1 + z2 guests, two to four |
| Meaning.FeasibleEncounters | model/DinnerInstance.py:123-183 | on a solution two groups share at most 1 + z[3, g1, g2] hosts, and z[3, g1, g2] is an integer of at least -1 |
| Meaning.FeasibleTravel | model/DinnerInstance.py:136-156 | on a solution every leg a group walks is at most its leg's t: home to first host, each consecutive pair, last host home; with a party, t[E-2] is at least the sum of all last-round hosts' walks to it |
| Solve.Covered | model/DinnerInstance.py:138-156 | every travel time `solve` looks up is in the table, the party's included |
| Solve.HostLists | model/DinnerInstance.py:139-150 | `hosts_by_events[e]` for the rounds 1..E-2, as a list |
| Solve.SetupOf | model/DinnerInstance.py:136-156 | what `solve` reads from an instance: the group count, E-2 rounds, the buckets as hosts, and a party exactly when there is one |
| Solve.SelectSolver | model/DinnerInstance.py:186-190 | as written: the result is CBC or the requested solver, and the requested solver whenever `listSolvers` lists it, whether or not it can run |
| Solve.SelectSolverCorrected | model/DinnerInstance.py:77-78 | as the docstring says: the result is CBC or the requested solver that is listed and can run, and that solver whenever it is listed and can run |
| Solve.SelectionsDiffer | model/DinnerInstance.py:186-190 | the two selections differ exactly when the requested solver is listed, cannot run and is not CBC |
| Solve.UnavailableSolverSelected | model/DinnerInstance.py:189 | as written, a listed solver that cannot run is selected, where the intended rule picks CBC |
| Solve.Range | model/DinnerInstance.py:195 | the group positions in list order |
| Solve.Decode | model/DinnerInstance.py:195 | one host list per group |
| Solve.PickedRange | model/DinnerInstance.py:195 | the filter keeps exactly the picked hosts, in increasing list order |
| Solve.PickedOfEvent | model/DinnerInstance.py:195 | the picked hosts with one host event id are the picked hosts of that round's bucket |
| Solve.PickedShape | model/DinnerInstance.py:195 | with one host picked per round, the filtered list is already sorted, has E-2 entries, and entry m hosts round m+1 |
| Solve.PickedPerRound | model/DinnerInstance.py:195 | the same, plus: sorting changes nothing and the group sits at position host_event_id - 1 |
| Solve.SolutionRounds | model/DinnerInstance.py:159-167 | on a solution a group visits itself, has one picked host per round, and its x's are 0/1 |
| Solve.DecodeOf | model/DinnerInstance.py:195 | for a group with one host per round and itself, the decoded list has E-2 hosts of rounds 1, 2, … in order, all with x = 1, and the group at its own round |
| Solve.DecodeOnValid | model/DinnerInstance.py:195 | the same, on a constructed instance |
| Solve.DecodeMeaning | model/DinnerInstance.py:195 | on a solution every group's decoded list has one host per main event in event order, each assigned, with the group itself at position host_event_id - 1 |
| Solve.SolveInstance | model/DinnerInstance.py:97-195 | `solve` builds exactly the declared variables, the objective and the rows as written, selects the solver as line 189 does, and returns the decoding of the run's values |
| Findings.PartySumCovers | model/DinnerInstance.py:154-156 | the party sum is at least each host's walk, and more when another host's walk is not zero |
| Findings.FinalRowCorrectedMeaning | model/DinnerInstance.py:153 | with one last-round host chosen, the corrected row holds exactly when t[E-2] is at least the walk from that host home or to the party |
| Findings.FinalRowStronger | model/DinnerInstance.py:152-156 | the party row as written implies the corrected one |
| Findings.PartyLegOvercounts | model/DinnerInstance.py:152-156 | with a second last-round host whose walk is not zero, the t of the group's own walk meets the corrected row but not the row as written |
| Findings.PartyLegExample | model/DinnerInstance.py:152-156 | a concrete setup of two hosts 300 s from the party where t = 300 meets the corrected row and not the one as written |
| Findings.SumTermsWith | model/DinnerInstance.py:130-133 | changing one value moves an affine sum by that variable's coefficient times the change |
| Findings.PairRowCoef | model/DinnerInstance.py:133 | z[3, g1, g2] occurs in g0's row of the encounter penalty with weight p when g0 is g1, and not otherwise |
| Findings.PairPenaltyCoef | model/DinnerInstance.py:133 | z[3, g1, g2] occurs in the encounter-penalty sum once, with weight p |
| Findings.ObjectiveCoef | model/DinnerInstance.py:130-133 | the objective weighs z[3, g1, g2] with `penalty_multiple_encounters` |
| Findings.TravelWithout | model/DinnerInstance.py:136-156 | changing z[3, ·, ·] leaves every travel row as it was |
| Findings.OthersWithout | model/DinnerInstance.py:159-183 | changing z[3, g1, g2] leaves every row except that pair's cap row as it was |
| Findings.MinusOneInDomains | model/DinnerInstance.py:123 | z[3, g1, g2] = -1 lies within the bounds as written |
| Findings.MinusOneSatisfies | model/DinnerInstance.py:136-183 | for a pair with no y set, z[3, g1, g2] = -1 keeps every row as written satisfied |
| Findings.NegativeEncounterPenalty | model/DinnerInstance.py:121-133 | as written, on any solution a pair that never meets and has z[3, g1, g2] = 0 can take -1, stay a solution and lower the objective by the penalty; the corrected bound excludes -1 |
| Findings.ObjectiveDrops | model/DinnerInstance.py:130-133 | lowering z[3, g1, g2] from 0 to -1 lowers the objective by the encounter penalty |
| Findings.CorrectedDomainsNarrower | model/DinnerInstance.py:123 | values in the corrected domains lie in the declared ones, with every z[3, g1, g2] non-negative |
| Findings.EncounterPenaltyCorrected | model/DinnerInstance.py:75 | on a solution of the corrected problem, z[3, g1, g2] is non-negative and at least the number of shared hosts minus one |
| Csv.Mains | model/DinnerInstance.py:206 | `events[1:-1]`: the main events, none when there are fewer than two events |
| Csv.Names | model/DinnerInstance.py:208 | the host names, in list order |
| Csv.HeaderLine | model/DinnerInstance.py:206 | the header text; `HeaderIsLine` and `CsvRoundTrip` state what it reads back as |
| Csv.RowLine | model/DinnerInstance.py:208 | one row's text; `RowIsLine` and `NotEscaped` state what it reads back as |
| Csv.RowsTextSnoc | model/DinnerInstance.py:207-208 | one more item of the solution adds its row at the end |
| Csv.SaveCsv | model/DinnerInstance.py:205-208 | the text written is the header followed by one row per item, in item order |
| Csv.Items | model/DinnerInstance.py:207 | the solution dict's items: each group with its hosts as Group objects, in group order |
| Csv.IndexOfFinds | model/DinnerInstance.py:206-208 | the reader's search finds the first occurrence of a character |
| Csv.JoinHasNoNewline | model/DinnerInstance.py:206-208 | joining newline-free names gives a newline-free text |
| Csv.FieldsOfJoin | model/DinnerInstance.py:206-208 | quote-free names joined by `";"` split back into the same names |
| Csv.LineRoundTrip | model/DinnerInstance.py:206-208 | a quoted line of quote- and newline-free names reads back as those names and ends at its only newline |
| Csv.HeaderIsLine | model/DinnerInstance.py:206 | the header is the quoted line of "Group" and the main events |
| Csv.RowIsLine | model/DinnerInstance.py:208 | a row with at least one host is the quoted line of the group's name and the host names |
| Csv.NotEscaped | model/DinnerInstance.py:206-208 | nothing is escaped: a row without hosts is the same text as one with one empty host, and a name holding `";"` is the same text as two names |
| Csv.ParseCsvCons | model/DinnerInstance.py:207-208 | a whole line in front of a text is read as that line's fields in front of the text's rows |
| Csv.Table | model/DinnerInstance.py:207-208 | one table row per item |
| Csv.RowsRoundTrip | model/DinnerInstance.py:207-208 | the rows of plain names read back as each group's name followed by its host names |
| Csv.CsvRoundTrip | model/DinnerInstance.py:206-208 | the file reads back as the header row "Group" plus the main events, then each group's name and host names |
| Csv.ItemsPlain | model/DinnerInstance.py:207-208 | plain group names and non-empty host lists give plain items |
| Csv.DecodedAll | model/DinnerInstance.py:195 | on a solution every group's decoded list has one host per main event, in event order |
| Csv.VisitsCsv | model/DinnerInstance.py:195-208 | the CSV of one host list per group reads back row by row, each row as wide as the header, each host of the right event and assigned |
| Csv.SolutionCsv | model/DinnerInstance.py:195-208 | the file written from a solution reads back as the header and one row per group, naming the group and then its host of each main event in order |

## Left out

- The HTTP requests to the geocoder and the matrix service (model/Location.py:67-79, model/TravelTimes.py:56-61) and `Group.from_address` are out, because they are network I/O. The services are function parameters `Geocoder` and `MatrixService`. The API key is not modelled.
- PuLP's solving is out, because it is a foreign library. The solver run is a function parameter from the problem and the solver name to values for every variable. Only what holds for any values that satisfy the rows is proved, nothing about optimality. The status the run returns is ignored by the code and is not modelled.
- Solver discovery (`listSolvers`) is out, because it is run-time discovery. The list it returns is a parameter of `Solve.SelectSolver`. Whether a solver can run is a parameter of `Solve.SelectSolverCorrected` only, because the code as written never asks.
- Printing and timing (lines 126 and 193) are out, because they have no effect on the result.
- `save_map` (lines 210–300) is out, because it is folium rendering over a floating-point bounding box.
- Floating point is out, because only comparisons and sums occur:
  - travel times are `nat`;
  - coordinates are an equality-only type, so the tuple hash is a parameter and Python's `hash` is not reproduced;
  - solver values are reals, read through the 0.99 test of line 195.
- Csv.SaveCsv: the file is not opened or written. The method returns the text that the `file.write` calls would write.
- Csv.CsvRoundTrip: the round trip is stated only for names without quotes or newlines, because `save_csv` escapes nothing. `Csv.NotEscaped` shows what goes wrong otherwise.
- Csv.SolutionCsv: states the read-back only for such plain names, for the same reason.
- Groups.GetLocations: the iteration order of a Python set is not specified, so the model lists the distinct locations in first-seen order. The lemmas about it state membership and distinctness and do not depend on that order.
- `solve` returns a dict keyed by Group objects. The model returns one host list per group position, and `Csv.Items` turns it into the dict's items in group order, which is the insertion order of the comprehension at line 195.
- Travel.Build: the matrix answer is a parameter, a list of lists of `nat` durations. A matrix that is too short fails with IndexError, as the indexing of the code does. A malformed JSON answer is not modelled. Neither is a `null` duration, which Python reads as None, so that the comparison at model/TravelTimes.py:30 raises TypeError.
- Locations.DecodeResponse: the geocoder's reply is a typed value: an optional error message and a list of features, each with a list of coordinates. Two failures of the code cannot occur in it, so `FromAddressErrors` and `Instance.LookupFailureOutcome` promise "never a KeyError or ValueError" only for these reply shapes:
  - a body that is not JSON makes `json.loads` at model/Location.py:80 raise JSONDecodeError, a ValueError;
  - a reply without the `features`, `geometry` or `coordinates` keys makes line 83 raise KeyError.
- Solve.SolveInstance: the solver run is a total function from the problem and the solver name to a value for every variable. Two outcomes of `solve` are therefore not modelled:
  - the PuLPError that `prob.solve(selected_solver)` at model/DinnerInstance.py:191 raises when the solver fails (docstring lines 94–95), which is how the input of the line-189 finding, a listed solver that cannot run, ends;
  - the TypeError at line 195 when a variable is left without a value, since `x[group, host].value()` is then None and `None > 0.99` raises.
- calculate.py, import_locations.py and example.py are driver scripts outside this model. model/Coordinates.py is the `Coordinates` datatype of `Locations`.

## Findings

| source | as written | input that shows it | evidently intended | confidence | as-written member | corrected member |
|---|---|---|---|---|---|---|
| model/DinnerInstance.py:123 | `z[3, g1, g2]` is an `LpInteger` with no `lowBound`, so it may be negative | any solution with a pair g1 < g2 that shares no host and has z[3, g1, g2] = 0: with z[3, g1, g2] = -1 every row still holds and the objective drops by `penalty_multiple_encounters` | `lowBound=0`, so that z[3, g1, g2] counts the extra meetings, at least max(0, shared - 1) | not executed | Findings.NegativeEncounterPenalty | Findings.EncounterPenaltyCorrected |
| model/DinnerInstance.py:154-156 | with a party, the last leg bounds t[E-2] by the sum of the walks of all last-round hosts to the party, without the factor `x[group, host]` that the home leg at line 149 has | `Findings.PartyLegExample`: two groups, one main round hosted by both, each host 300 s from the party; t[1] = 300 fits the walk each group makes, but the row as written asks for 600 | `lpSum(tt[host][party] * x[group, host] ...)`, which bounds t[E-2] by the group's own last host's walk, as line 153 says | not executed | Findings.PartyLegOvercounts | Findings.FinalRowCorrectedMeaning |
| model/DinnerInstance.py:189 | `if prioritized_solver.available:` tests the bound method without calling it, and a method object is always true | a solver name that `listSolvers()` lists but whose `available()` returns False: it is selected and `prob.solve` is handed a solver that cannot run | `if prioritized_solver.available():`, so that such a solver falls back to CBC, as lines 77–78 say | medium, not executed (it depends on `available` being a method in the PuLP version used) | Solve.UnavailableSolverSelected | Solve.SelectSolverCorrected |
