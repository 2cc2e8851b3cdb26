# Verified models of UFO's quality control and bias correction

UFO compares observations with a model state. This project models the parts of it that decide by loops, index
arithmetic or real arithmetic, and proves what they promise:

- **Met Office buddy check** (`ZonalBands`, `LongitudeSearch`, `BuddyCollectors`, `BuddyFeed`, `RunFacts`,
  `LegacyCollector`, `PairLists`, `BuddySearch`, `FoundPairs`, `BuddyPairFinder`, `HiddenPair`, `SearchRange`,
  `LegacySearch`, `BuddyMath`, `BuddySweep`, `LikelihoodRatio`, `AgreementFactor`, `Posterior`, `BuddyCheck`, `BuddyRun`,
  `ProfileIndex`). Observations are sorted by zonal band and longitude, each looks for nearby observations until its
  collector, the legacy or the corrected one, has enough, and a sweep over the pairs found rewrites gross error
  probabilities in place. Probabilities stay probabilities over every run; no two observations are paired twice; no pair
  in reach is missed unless a limit of the one that looks for the other was met, with one exception that is stated
  exactly; what is in reach is stated in kilometres; the legacy collector is compared with the corrected one. What a
  pair does to its probabilities is stated from the data, and is Bayes' rule for an undamped pair of scalars.
- **Bias correction** (`ObsVectors`, `BiasOperator`, `AdjointDefect`, `NonlinearBias`, `BiasCovariance`). The adjoint of
  the tangent linear really is its adjoint, the tangent linear is the exact difference of the nonlinear operator (and
  exactly when it is not), and the covariance of the coefficients stays within its bounds over every sequence of outer
  loops; the Hessian in it is the curvature of the misfit to the observations.
- **Cross-variable observation error covariance** (`CrossVarCov`). The product with R equals the one fresh buffers
  would give at every location, it is self-adjoint and positive, and the inverse product undoes it and is undone by it.
- **History check** (`HistoryCheck`, `DistinctInts`). The flags form a multiset intersection by time, position and
  station name.
- **Gaussian thinning** (`GaussianThinning`, `MedianThinning`). One survivor per bin, the one of the largest priority,
  least distance and latest time; when thinning by the median, a middle order statistic exactly if the missing values
  leave the first members of the bin alone.
- **Two algorithms of the bundled linter** (`Preprocessor`, `TextInside`). The brace stack at every place in a file is
  the one that the branches around it and the first branches before it produce, and the bracket matcher is sound and
  complete.

Objects the code updates in place are classes or arrays, and each method is tied to a function or predicate about which
the lemmas are proved. Floating-point numbers are `real`; the missing-value sentinel is a constructor of its own
(`Missing.Datum`). `exp`, `log`, `pow`, `sin` and `cos` are arbitrary functions with the facts in
`BuddyMath.Lawful` assumed: `exp` is positive, monotone and at least `1 + s`, `exp(s) exp(-s)` is 1, and `pow(z, d)`
lies between 1 and `z` for `d` in [0, 1]; nothing else is assumed of these functions throughout. Further facts are
hypotheses of the results that need them: that `exp` turns sums into products (`CorrelationDecreases` and `Posterior`),
that `log` turns products into sums and is strictly increasing (the meaning of the exponent), that the squares of `sin`
and `cos` add up to 1 (`AgreementFactor`), that `pow(z, 1)` is `z` (`Posterior`), that the cosine is even and falls from
the equator to the poles (the ranges of longitudes), and that the parallel at the pole is at most 10 km in radius
(`LegacyAgreesIff`).
Great-circle distance and rotation angles are a function parameter, as is the triangular solver, of which only the
contract is used that it solves the gathered system when that is positive definite.

Eight properties one might expect turn out false of the code as it is, and are stated with their exact conditions:

- The legacy collector's buddies are a subsequence of the corrected one's when both see the same candidates
  (`V1SubsequenceOfV2`). The search, however, stops feeding a collector that has enough from a band or altogether. It
  keeps the property for all observations exactly if the settings allow no buddy of an observation's own station, or
  the search radius reaches from pole to pole (`LegacyAgreesIff`); with any other settings there is a search that does
  not have it (`LegacyNotSubsequence`).
- Within one zonal band a search range of half width between 180 and 360 degrees hides observations from each other
  across the date line, exactly if their distance the long way round exceeds it (`ReachWithinBand`,
  `HiddenAreNotPaired`). Narrow bands near the poles have such ranges (`NotPairedAcrossDateLine`).
- The range of longitudes covers the search radius along the parallels of the band an observation is in, except that
  bands lie a thousandth of a degree below their nominal limits: in the southern hemisphere an observation can lie beyond
  the limit the range is computed for. Unless the radius spans half a parallel, all latitudes are covered exactly if
  there are no more than two bands (`AlwaysCoversIff`).
- Distance is measured on a shorter way than along the parallel, so that even within the search radius observations
  can be out of range. They are paired only if their longitudes are no farther apart than the half width of the one that
  comes first (`BeyondRangeAreNotPaired`, `NotPairedOutOfRange`), and are if they are closer than that, limits and the
  date line aside (`BuddiesArePaired`).
- The exponent of the buddy check is the logarithm of a likelihood ratio for a scalar variable. For a wind its
  logarithmic term has the longitudinal correlation twice, and a small transverse term is left out; it is one whatever
  the departures exactly if no transverse term is left out and the transverse correlation has the same size, the
  non-divergence constraint times the scaled distance being 0 or 2 (`ExponentMeaning`, `WindExponentFails`).
- Where a predictor is missing the tangent linear skips the observation, but the adjoint still reads its other
  predictors; the adjoint identity holds exactly when what it reads there sums to zero (`AdjointIdentityIff`).
- The tangent linear does not know the channels without bias correction: it is exact for every increment exactly if the
  channel is corrected or no variable predictor contributes at the observation (`AlwaysExactIff`,
  `ExcludedChannelFails`).
- Median thinning looks up a position counted among the values that are not missing in the whole bin. Of n members with
  a value, the survivor is a middle one for all values they may have exactly if the first n members of the bin have
  values, or the first n - 1 for an even n (`AlwaysKeepsMiddleIff`).

## Model

| member | source | states |
|---|---|---|
| BuddyMath.CorrelationBound | src/ufo/filters/MetOfficeBuddyCheck.cc:618-633 | the correlation (1 + s) exp(-s - a) of a pair lies in (0, 1] for every distance and separation |
| BuddyMath.SquaredCorrelationBound | src/ufo/filters/MetOfficeBuddyCheck.cc:647-653 | the squared total correlation lies in [0, 1) for a correlation of size at most 1 and positive errors |
| BuddyMath.TransverseBound | src/ufo/filters/MetOfficeBuddyCheck.cc:719-736 | the transverse correlation with a non-divergence constraint in [0, 1] is at most 1 in size |
| BuddyMath.CorrelationDecreases | src/ufo/filters/MetOfficeBuddyCheck.cc:615-633 | the correlation falls with distance and with the separation in pressure and time |
| BuddyMath.ExponentIsLikelihoodRatio | src/ufo/filters/MetOfficeBuddyCheck.cc:653-657 | the undamped exponent of a scalar variable, its logarithmic term included, is the logarithm of a likelihood ratio: the joint Gaussian density of two correlated departures over that of independent ones |
| BuddyMath.WindExponentGap | src/ufo/filters/MetOfficeBuddyCheck.cc:771-783 | by how much the exponent of a wind differs from that of both components: the logarithmic term has the longitudinal correlation twice, and a small transverse term is left out |
| BuddyMath.WindExponentIff | src/ufo/filters/MetOfficeBuddyCheck.cc:771-783 | they are equal for all departures exactly when no transverse term is left out and the transverse covariance is plus or minus the longitudinal one |
| BuddyMath.DenominatorBound | src/ufo/filters/MetOfficeBuddyCheck.cc:659-663 | the denominator of z is positive and greater than either probability, so the rounding branch is dead in exact arithmetic |
| BuddyMath.AgreementBound | src/ufo/filters/MetOfficeBuddyCheck.cc:659-666 | z keeps both probabilities in [0, 1); it is at most 1 exactly when the exponential is at least 1, and at least 1 exactly when it is at most 1 |
| BuddyMath.DampedUpdateBound | src/ufo/filters/MetOfficeBuddyCheck.cc:664-666 | so does the power of z with a damping factor in [0, 1] |
| BuddySweep.Check.Rho2Bound | src/ufo/filters/MetOfficeBuddyCheck.cc:647-657 | the squared longitudinal correlation of every comparable pair lies in [0, 1), so the logarithm and the quotient are defined |
| BuddySweep.Check.TransverseRho2Bound | src/ufo/filters/MetOfficeBuddyCheck.cc:745-783 | the same for the squared transverse correlation of a wind |
| LikelihoodRatio.ExponentMeaning | src/ufo/filters/MetOfficeBuddyCheck.cc:766-783 | the exponent of a pair in the sweep is, whatever the departures, the logarithm of their likelihood ratio: always for scalars, and for winds exactly when the squared transverse correlation is not neglected (above 0.00001, or its covariance zero) and the non-divergence constraint times the scaled distance is 0 or 2 |
| LikelihoodRatio.WindExponentFails | src/ufo/filters/MetOfficeBuddyCheck.cc:766-783 | a comparable pair of winds, half a correlation scale apart, for which it is not |
| BuddySweep.CheckData | src/ufo/filters/MetOfficeBuddyCheck.cc:603-677 | the sweep in place leaves the probabilities the specification of the whole sweep gives |
| BuddySweep.CheckPair | src/ufo/filters/MetOfficeBuddyCheck.cc:604-635 | one pair: skipped unless both observations passed and correlate enough |
| BuddySweep.CheckLevels | src/ufo/filters/MetOfficeBuddyCheck.cc:638-676 | all levels of a pair, one after the other |
| BuddySweep.CheckLevel | src/ufo/filters/MetOfficeBuddyCheck.cc:745-792 | one level rewrites exactly the two entries of the pair, or none |
| BuddySweep.DampedAgreement | src/ufo/filters/MetOfficeBuddyCheck.cc:654-664 | the factor as the code computes it, with clamping and the rounding branch, is the specified positive one |
| BuddySweep.Check.Sweep | src/ufo/filters/MetOfficeBuddyCheck.cc:603-676 | over any number of pairs every entry keeps its status: checkable ones stay in [0, 1), all others stay as they are |
| BuddySweep.SweepKeepsProbabilities | src/ufo/filters/MetOfficeBuddyCheck.cc:604-676 | after any number of pairs of any list a probability that started in [0, 1) is in [0, 1) |
| BuddySweep.SweepKeepsOthers | src/ufo/filters/MetOfficeBuddyCheck.cc:639-642 | missing entries and entries of at least 1 never change |
| BuddySweep.SweepFrame | src/ufo/filters/MetOfficeBuddyCheck.cc:604-676 | nor do entries of observations in no checked pair |
| BuddySweep.PairScalesBoth | src/ufo/filters/MetOfficeBuddyCheck.cc:654-666 | a pair multiplies both probabilities by one positive factor, on the side of 1 that the sign of the damped exponent says |
| AgreementFactor.ActiveIff | src/ufo/filters/MetOfficeBuddyCheck.cc:604-635 | a pair is checked exactly if both observations passed and (1 + s) exp(-s - q) is at least 0.1, with s the distance over the mean correlation scale and q the squared separation in time and, on single levels, in log pressure |
| AgreementFactor.PairChangesOnly | src/ufo/filters/MetOfficeBuddyCheck.cc:604-666 | only entries of the members of such a pair change, at levels where neither is missing or at least 1 |
| AgreementFactor.DataOfPair | src/ufo/filters/MetOfficeBuddyCheck.cc:643-653 | variances and covariances of a checked pair from errors, correlation and scaled distance; departures from observation and background, those of a wind being turned back by the rotations to the departures of u and v |
| AgreementFactor.PairFactor | src/ufo/filters/MetOfficeBuddyCheck.cc:653-666 | both probabilities are multiplied by a power, dampingFactor2, of 1 / (1 - (1 - a)(1 - b)(1 - exp(x))), where x is dampingFactor1 times the evidence, limited to [-80, 80]; the evidence is the logarithm of the likelihood ratio of the departures, for winds with the difference `WindExponentGap` gives |
| AgreementFactor.EvidenceIsRatio | src/ufo/filters/MetOfficeBuddyCheck.cc:766-783 | the evidence is that logarithm: for scalars, and for winds under the condition of `ExponentMeaning` |
| AgreementFactor.EvidenceDecides | src/ufo/filters/MetOfficeBuddyCheck.cc:653-666 | with a positive dampingFactor1 the factor is at most 1 if the evidence is for the pair, and at least 1 if it is against it |
| Posterior.BayesRule | src/ufo/filters/MetOfficeBuddyCheck.cc:658-666 | multiplying by z = P(A) P(B) / P(A and B) is Bayes' rule: the probability of a gross error given one observation becomes the one given both, for all priors and likelihoods |
| Posterior.PairIsBayesRule | src/ufo/filters/MetOfficeBuddyCheck.cc:603-666 | so an undamped checked pair of scalars has both probabilities updated by Bayes' rule with Gaussian departures, unless the evidence is beyond the limits |
| BuddySweep.DisjointPairsCommute | src/ufo/filters/MetOfficeBuddyCheck.cc:604-676 | pairs without a common observation may be checked in either order |
| BuddyCheck.CheckScalarVariable | src/ufo/filters/MetOfficeBuddyCheck.cc:400-416 | unravel, sweep and write back: indexed entries get the swept values, others stay, probabilities stay probabilities |
| BuddyCheck.CheckVectorVariable | src/ufo/filters/MetOfficeBuddyCheck.cc:358-395 | the sweep starts from the larger of two components' probabilities and its result, in the first component's data, is stored for both |
| BuddyCheck.FlagRejected | src/ufo/filters/MetOfficeBuddyCheck.cc:838-840 | flags are added exactly where the probability reaches the threshold |
| BuddyRun.FoundSweepable | src/ufo/filters/MetOfficeBuddyCheck.cc:298-409 | the pairs found have what the sweep requires, given non-negative distances, positive correlation scales and positive errors |
| BuddyRun.FindAndCheck | src/ufo/filters/MetOfficeBuddyCheck.cc:298-409 | finding the pairs and sweeping over them: the grid becomes the sweep over the pairs found, and probabilities stay probabilities |
| LongitudeSearch.Sky.ReachInBand | src/ufo/filters/MetOfficeBuddyPairFinder.cc:153-197 | which observations of its own band an observation looks at: those after it within the half width, and, for half widths below 180, those across the date line |
| LongitudeSearch.Sky.ReachOneWay | src/ufo/filters/MetOfficeBuddyPairFinder.cc:157-197 | of two observations of a band at most one looks at the other, and none at itself |
| LongitudeSearch.Sky.WantedOnce | src/ufo/filters/MetOfficeBuddyPairFinder.cc:161-216 | no observation is visited by two of the three loops |
| LongitudeSearch.Sky.ReachAcrossBands | src/ufo/filters/MetOfficeBuddyPairFinder.cc:161-216 | across bands the three loops cover exactly the longitudes within the half width, date line or not, up to ties at that very distance |
| LongitudeSearch.Sky.ReachWithinBand | src/ufo/filters/MetOfficeBuddyPairFinder.cc:156-197 | within a band one of two close observations looks at the other, unless the half width is at least 180 and less than their distance the long way round |
| LongitudeSearch.Sky.HiddenInBand | src/ufo/filters/MetOfficeBuddyPairFinder.cc:182-216 | in that case neither looks at the other |
| LongitudeSearch.Sky.CandidatesIff | src/ufo/filters/MetOfficeBuddyPairFinder.cc:161-216 | the loops together examine each observation in reach once |
| ZonalBands.Zones.BandExists | src/ufo/filters/MetOfficeBuddyPairFinder.cc:60-67 | every latitude down to -90 falls into one of the bands |
| ZonalBands.Zones.BandLimits | src/ufo/filters/MetOfficeBuddyPairFinder.cc:62-67 | a band's latitudes lie within half its width of its middle, up to the thousandth of a degree by which bands are shifted |
| ZonalBands.Zones.LastBandReaches | src/ufo/filters/MetOfficeBuddyPairFinder.cc:111-138 | no observation within the search latitude lies beyond the last band searched |
| ZonalBands.Zones.LastBandTight | src/ufo/filters/MetOfficeBuddyPairFinder.cc:111-138 | the last band searched is the last one, or the first so many band widths away that they exceed the search latitude |
| ZonalBands.Zones.SearchesBuddies | src/ufo/filters/MetOfficeBuddyPairFinder.cc:111-154 | the band range and the test against the band's middle keep every observation within the search latitude, if there is one band only or that latitude is a thousandth of a degree or more |
| ZonalBands.Zones.SearchesBuddiesIff | src/ufo/filters/MetOfficeBuddyPairFinder.cc:60-67 | and for all latitudes only then: by so much the bands lie below their nominal limits |
| ZonalBands.Zones.SimilarIff | src/ufo/filters/MetOfficeBuddyPairFinder.cc:109-111 | latitudes are similar exactly if their distance along a meridian is at most the search radius |
| ZonalBands.Zones.BandsDescend | src/ufo/filters/MetOfficeBuddyPairFinder.cc:60-67 | bands are numbered from north to south |
| ZonalBands.Zones.RangeAtLimit | src/ufo/filters/MetOfficeBuddyPairFinder.cc:240-253 | the half width of a band's range is 360 degrees if the parallel at its limit nearer a pole is at most 10 km in radius, and otherwise spans exactly the search radius along that parallel |
| ZonalBands.Zones.RangeCovers | src/ufo/filters/MetOfficeBuddyPairFinder.cc:240-253 | along every parallel no nearer a pole it spans at least the search radius, north or south |
| ZonalBands.Zones.RangeEnds | src/ufo/filters/MetOfficeBuddyPairFinder.cc:240-253 | along those nearer a pole it spans less |
| ZonalBands.Zones.AlwaysCoversIff | src/ufo/filters/MetOfficeBuddyPairFinder.cc:60-67 | it spans the search radius along the parallel of every observation exactly if there are at most two bands |
| BuddyFeed.FeedFacts | src/ufo/filters/MetOfficeBuddyPairFinder.cc:174-178 | either collector leaves a band early only when a limit is reached, and neither limit is ever exceeded, as the code asserts |
| RunFacts.RunBandLimit | src/ufo/filters/MetOfficeBuddyPairFinder.cc:177-219 | over all bands a collector never counts more from one band than it may |
| RunFacts.RunComplete | src/ufo/filters/MetOfficeBuddyPairFinder.cc:146-222 | over all bands a collector collects every candidate that passes both tests, unless the total, the limit of its band or the allowance for its station is used up |
| BuddySearch.Search.ExaminesOneWay | src/ufo/filters/MetOfficeBuddyPairFinder.cc:136-216 | of any two observations at most one examines the other |
| BuddySearch.Search.BuddiesKeepLimits | src/ufo/filters/MetOfficeBuddyPairFinder.cc:146-222 | an observation's buddies are in reach and within the radius, are distinct, and respect the limits on their total and on those of its own station |
| BuddySearch.Search.BandLimitKept | src/ufo/filters/MetOfficeBuddyPairFinder.cc:177-219 | and the limit on those from any single band |
| BuddySearch.Search.BuddiesComplete | src/ufo/filters/MetOfficeBuddyPairFinder.cc:146-222 | an eligible observation is a buddy unless the one limit that stands against it was met: the total, that of its band, or, for one of the same station, that of the station |
| BuddySearch.Search.MetLimitByBuddies | src/ufo/filters/MetOfficeBuddyPairFinder.cc:146-222 | with the corrected collector these limits are met by the buddies themselves |
| LegacySearch.LegacyAgreesIff | src/ufo/filters/MetOfficeBuddyPairFinder.cc:102-229 | in every search with given zones and limits the legacy buddies of every observation are a subsequence of the corrected ones, exactly if the limit on buddies of the same station is 0 or the search latitude is 180 degrees or more |
| LegacySearch.LegacyNotSubsequence | src/ufo/filters/MetOfficeBuddyPairFinder.cc:102-229 | with any other settings, a search on the globe, sorted as the code sorts, in which the observation at the pole gets by the legacy collector a buddy that the corrected one stops before |
| BuddySearch.Search.NoPairTwice | src/ufo/filters/MetOfficeBuddyPairFinder.cc:102-229 | no two observations are paired twice, in either order |
| BuddySearch.Search.NotWithItself | src/ufo/filters/MetOfficeBuddyPairFinder.cc:158-159 | no observation is paired with itself |
| BuddySearch.Search.BuddiesArePaired | src/ufo/filters/MetOfficeBuddyPairFinder.cc:102-229 | any two observations within the radius and the longitude range are paired, wherever the date line runs, unless they are hidden from each other or the one that examines the other met a limit that stands against it |
| SearchRange.BuddiesAlongParallel | src/ufo/filters/MetOfficeBuddyPairFinder.cc:102-253 | two observations within the search radius, in latitude, in distance and along the parallel of the first, are paired with the same exceptions, unless the first lies beyond the limit of its band; nothing is assumed of the range |
| BuddySearch.Search.BeyondRangeAreNotPaired | src/ufo/filters/MetOfficeBuddyPairFinder.cc:102-229 | those farther apart in longitude than the half width of the first are never paired |
| SearchRange.NotPairedOutOfRange | src/ufo/filters/MetOfficeBuddyPairFinder.cc:240-253 | with 180 bands and a radius of 100 km, two observations 99.4 km apart on one parallel that are out of range |
| BuddySearch.Search.HiddenAreNotPaired | src/ufo/filters/MetOfficeBuddyPairFinder.cc:102-229 | the hidden ones are never paired |
| HiddenPair.NotPairedAcrossDateLine | src/ufo/filters/MetOfficeBuddyPairFinder.cc:240-253 | with 180 bands and a radius of 400 km the half width beside a pole is over 200 degrees, and two observations less than three kilometres apart are not paired, with either collector |
| BuddyPairFinder.BuddyPairFinder.SortObservations | src/ufo/filters/MetOfficeBuddyPairFinder.cc:48-100 | the sorted observations are those given, and the bounds are those of the bands |
| BuddyPairFinder.FillBounds | src/ufo/filters/MetOfficeBuddyPairFinder.cc:84-97 | bound b is at most position l exactly when the observation at l lies in band b or later |
| BuddyPairFinder.ExamineAround | src/ufo/filters/MetOfficeBuddyPairFinder.cc:162-179 | the first loop, with its breaks, feeds the collector exactly the positions in range until it is full, and reports the first of them |
| BuddyPairFinder.ExaminePastEast | src/ufo/filters/MetOfficeBuddyPairFinder.cc:182-197 | the second loop likewise |
| BuddyPairFinder.ExaminePastWest | src/ufo/filters/MetOfficeBuddyPairFinder.cc:200-216 | the third loop likewise, downward |
| BuddyPairFinder.AroundBegins | src/ufo/filters/MetOfficeBuddyPairFinder.cc:157-171 | starting at the remembered first observation in range loses nothing |
| BuddyPairFinder.FirstToCheckNext | src/ufo/filters/MetOfficeBuddyPairFinder.cc:140-171 | what was too far west of one observation is too far west of the next in the band |
| BuddyPairFinder.BuddyPairFinder.ExamineBand | src/ufo/filters/MetOfficeBuddyPairFinder.cc:152-219 | a band feeds the collector its whole stream, or as much as it takes |
| BuddyPairFinder.BuddyPairFinder.PairObservations | src/ufo/filters/MetOfficeBuddyPairFinder.cc:102-229 | the optimised search returns the pairs of its specification, which has neither breaks nor remembered positions, with whichever collector is asked for |
| BuddyPairFinder.BuddyPairFinder.FindBuddyPairs | src/ufo/filters/MetOfficeBuddyPairFinder.cc:40-46 | every pair joins two different valid observations with their distance and angles, within the radius and at similar latitudes, no two of them twice, and nobody has looked for more than the limits allow, with either collector |
| FoundPairs.FoundWithinLimits | src/ufo/filters/MetOfficeBuddyCollector.h:101-109 | of all pairs found, no more than the limits have the same first observation: altogether, with a second of its station, and with a second from any one band |
| BuddyCollectors.Question.V1SubsequenceOfV2 | src/ufo/filters/MetOfficeBuddyCollectorV1.cc:21-55 | fed the same candidates the legacy collector's pairs are a subsequence of the corrected one's |
| BuddyCollectors.Question.V2SameCount | src/ufo/filters/MetOfficeBuddyCollectorV2.cc:21-40 | the same-station counter is the number of genuine same-station candidates, up to the limit |
| BuddyCollectors.Question.V2Genuine | src/ufo/filters/MetOfficeBuddyCollectorV2.cc:29-38 | every buddy is within the latitude difference and the search radius |
| BuddyFeed.StoppedInOneBandIff | src/ufo/filters/MetOfficeBuddyPairFinder.cc:174-178 | of a single band it can be read off the candidates, before any run: exactly if the corrected collector still has room before each candidate that the legacy one would take while it has room |
| LegacyCollector.WithoutAllowanceAgree | src/ufo/filters/MetOfficeBuddyPairFinder.cc:174-178 | stopping a band at either limit and the search at the total, the legacy pairs are a subsequence of the corrected ones for all candidates in all bands if the limits allow no buddy of the same station |
| LegacyCollector.GenuineAgree | src/ufo/filters/MetOfficeBuddyPairFinder.cc:174-178 | and equal to them if all candidates are within the latitude difference and the radius |
| LegacyCollector.WastefulFeed | src/ufo/filters/MetOfficeBuddyPairFinder.cc:174-178 | a band, for any limit on buddies of the same station above 0, of which the legacy collector hands over the last candidate and the corrected one does not examine it |
| BuddyCollectors.BuddyCollectorV2.ExaminePotentialBuddy | src/ufo/filters/MetOfficeBuddyCollectorV2.cc:21-40 | keeps the invariant that list and counters are functions of all candidates examined since the last reset |
| BuddyCollectors.BuddyCollectorV2.StartProcessingNextBand | src/ufo/filters/MetOfficeBuddyCollector.h:109-116 | only the band counter restarts |
| BuddyCollectors.BuddyCollectorV2.AppendBuddyPairsTo | src/ufo/filters/MetOfficeBuddyCollectorV2.cc:42-45 | appends the pairs selected from the whole stream |
| BuddyCollectors.BuddyCollectorV1.ExaminePotentialBuddy | src/ufo/filters/MetOfficeBuddyCollectorV1.cc:21-36 | the legacy invariant: same-station candidates count before anything else is known of them |
| BuddyCollectors.BuddyCollectorV1.AppendBuddyPairsTo | src/ufo/filters/MetOfficeBuddyCollectorV1.cc:38-55 | drops candidates outside the radius only when handing over |
| BuddyCollectors.MakeBuddyCollector | src/ufo/filters/MetOfficeBuddyPairFinder.cc:231-238 | the option chooses the collector, which then serves the questions of the search |
| ProfileIndex.LocationIndices | src/ufo/filters/MetOfficeBuddyCheck.cc:114-120 | the position of each location within its record: different for locations of the same record, and below its size |
| ProfileIndex.GatheredWellIndexed | src/ufo/filters/MetOfficeBuddyCheck.cc:125-127 | this is still so of what several processes gather, if no record is split between them |
| ProfileIndex.EverySlotTaken | src/ufo/filters/MetOfficeBuddyCheck.cc:129-144 | distinct positions below the size of a record leave no position free |
| ProfileIndex.MapRecordIdsToLocations | src/ufo/filters/MetOfficeBuddyCheck.cc:111-145 | the result partitions all locations, each record's in the order of their positions |
| ProfileIndex.DeriveIndices | src/ufo/filters/MetOfficeBuddyCheck.cc:155-191 | the rows are exactly the records with all levels, in order, each listing its chosen locations; an error exactly when some record has some, but not all, levels chosen |
| ProfileIndex.IndexIsInjective | src/ufo/filters/MetOfficeBuddyCheck.cc:165-190 | no location is in two cells of the index |
| ProfileIndex.IndexHolds | src/ufo/filters/MetOfficeBuddyCheck.cc:148-190 | the index holds exactly the locations of averaged profiles (all, or those the extended space marks with 1) whose records have as many of them as there are levels |
| ProfileIndex.Unravel | src/ufo/filters/MetOfficeBuddyCheck.cc:59-73 | every cell holds the value at its location |
| ProfileIndex.UpdateFlatData | src/ufo/filters/MetOfficeBuddyCheck.cc:76-87 | every indexed location gets its cell's value, all others keep theirs |
| ProfileIndex.UnravelUpdated | src/ufo/filters/MetOfficeBuddyCheck.cc:59-87 | unravelling what was written back gives what was written |
| ProfileIndex.UpdateUnraveled | src/ufo/filters/MetOfficeBuddyCheck.cc:59-87 | writing back what was unravelled changes nothing |
| DistinctInts.UniqueElements | src/ufo/filters/MetOfficeBuddyCheck.cc:202-209 | the elements of a list, each once, ascending |
| DistinctInts.MapDistinctValuesToDistinctInts | src/ufo/filters/MetOfficeBuddyCheck.cc:212-227 | values get equal numbers exactly when they are equal |
| HistoryCheck.CollectFlagged | src/ufo/filters/HistoryCheck.cc:191-204 | the set holds each key with the numbers 0 to m - 1 for its m flagged observations; the loop over numbers ends |
| HistoryCheck.IndexWindow | src/ufo/filters/HistoryCheck.cc:224-236 | the map numbers the applied window observations of each key in their order |
| HistoryCheck.MatchFlagged | src/ufo/filters/HistoryCheck.cc:191-262 | an applied window observation is flagged exactly when fewer applied ones with its key precede it than wide ones are flagged |
| HistoryCheck.IntersectionCount | src/ufo/filters/HistoryCheck.cc:191-262 | of m flagged and n applied observations of a key min(m, n) are flagged |
| HistoryCheck.IntersectionTakesFirst | src/ufo/filters/HistoryCheck.cc:224-262 | and they are the first ones |
| HistoryCheck.FlaggedHasTwin | src/ufo/filters/HistoryCheck.cc:153-262 | an observation is flagged only if a flagged wide one has its time, position and record, number or name of station, and the first of its kind is if there is one |
| HistoryCheck.GetStationIds | src/ufo/filters/HistoryCheck.cc:266-304 | each observation gets the number of its station, record or name; an error exactly for names without a number and for unsupported types |
| HistoryCheck.ApplyFilter | src/ufo/filters/HistoryCheck.cc:153-262 | the flags are the multiset intersection by station name, although names were numbered; an error exactly when the two spaces identify stations differently |
| GaussianThinning.Criteria.StrictWeakOrder | src/ufo/filters/Gaussian_Thinning.cc:507-562 | all four comparators are strict weak orders |
| GaussianThinning.Criteria.TieBreakRefines | src/ufo/filters/Gaussian_Thinning.cc:514-561 | those that break ties by time refine those that do not |
| GaussianThinning.Criteria.BestIsBest | src/ufo/filters/Gaussian_Thinning.cc:442-443 | no member is better, by the comparator, than the selected one, and it is better than all before it: the first of the best |
| GaussianThinning.IdentifyThinnedObservations | src/ufo/filters/Gaussian_Thinning.cc:428-451 | an observation is thinned exactly when it is a member of a group other than its best; each bin keeps one, which has its largest priority, among those its least distance, and among those the latest time |
| GaussianThinning.OneSurvivorPerBin | src/ufo/filters/Gaussian_Thinning.cc:441-448 | every occupied bin has exactly one survivor, and that one is preferred by priority, then distance, then time |
| GaussianThinning.SingletonSurvives | src/ufo/filters/Gaussian_Thinning.cc:440-441 | the sole observation of a bin is never thinned |
| GaussianThinning.ThinningIsIdempotent | src/ufo/filters/Gaussian_Thinning.cc:441-448 | the survivors leave nothing to thin |
| GaussianThinning.SurvivorsAreOccupiedBins | src/ufo/filters/Gaussian_Thinning.cc:441-448 | there are as many survivors as occupied bins |
| MedianThinning.IdentifyThinnedObservationsMedian | src/ufo/filters/Gaussian_Thinning.cc:455-504 | each group keeps the member at the selected position, or meets the default if it has too few values, as everything outside groups does |
| MedianThinning.FindClosestToMedian | src/ufo/filters/Gaussian_Thinning.cc:484-492 | the first value at the least distance from the median |
| MedianThinning.ClosestIsMiddle | src/ufo/filters/Gaussian_Thinning.cc:484-492 | the values closest to the median are exactly those with at least half the values at or below and at least half at or above |
| MedianThinning.MedianSurvives | src/ufo/filters/Gaussian_Thinning.cc:472-501 | without missing values exactly one member survives, a middle order statistic of its bin |
| MedianThinning.EvenNotLast | src/ufo/filters/Gaussian_Thinning.cc:486-491 | of an even number of values the last is never the one found |
| MedianThinning.SurvivorIsMiddleIff | src/ufo/filters/Gaussian_Thinning.cc:472-501 | the survivor has a value, and that is a middle order statistic, exactly when no member up to it is missing |
| MedianThinning.AlwaysKeepsMiddleIff | src/ufo/filters/Gaussian_Thinning.cc:472-501 | that is so for all values of the n members that have one exactly when the first n members are among them (n odd), or the first n - 1 (n even) |
| MedianThinning.MissingSurvives | src/ufo/filters/Gaussian_Thinning.cc:474-495 | otherwise a member without a value can be the survivor: of a missing and a present one the missing one |
| ObsVectors.ObsVector.Axpy | src/ufo/LinearObsBiasOperator.cc:49-62 | per-variable axpy that leaves missing entries and makes entries missing, as the operators rely on |
| BiasOperator.ObsBiasIncrement.Coefficients | src/ufo/ObsBiasIncrement.h:59-65 | one predictor's coefficients, over all variables, out of the flattened vector |
| BiasOperator.ObsBiasIncrement.UpdateCoeff | src/ufo/ObsBiasIncrement.h:68-72 | adds to one predictor's coefficients and leaves all others |
| BiasOperator.ObsBiasIncrement.Axpy | src/ufo/ObsBiasIncrement.cc:102-104 | adds a multiple of every coefficient |
| BiasOperator.SerializeRoundTrip | src/ufo/ObsBiasIncrement.cc:124-139 | two increments written one after the other are read back as they were |
| BiasOperator.LinearObsBiasOperator.ComputeObsBiasTL | src/ufo/LinearObsBiasOperator.cc:49-62 | each entry is the sum over predictors of coefficient times predictor; missing where a predictor is |
| BiasOperator.LinearObsBiasOperator.ComputeObsBiasAD | src/ufo/LinearObsBiasOperator.cc:66-78 | each coefficient grows by the product, over locations, of its predictor and the input |
| BiasOperator.AdjointIdentity | src/ufo/LinearObsBiasOperator.cc:49-78 | <TL x, y> = <x, AD(c0, y) - c0> for all sizes, x, y and c0, if y is missing wherever a predictor is |
| AdjointDefect.AdjointDefect | src/ufo/LinearObsBiasOperator.cc:49-78 | for every y, <TL x, y> = <x, AD(c0, y) - c0 - h>, with h what AD reads at observations the tangent linear skips |
| AdjointDefect.AdjointIdentityIff | src/ufo/LinearObsBiasOperator.cc:49-78 | the adjoint identity holds for all x exactly when every coefficient's products with y at such observations sum to zero |
| AdjointDefect.HiddenReachesCoefficients | src/ufo/LinearObsBiasOperator.cc:66-78 | one observation with one predictor missing and one present for which it fails |
| NonlinearBias.ComputeObsBias | src/ufo/ObsBiasOperator.cc:32-117 | each entry is the weighted sum over present predictors; the predictors come out scaled |
| NonlinearBias.AddPredictor | src/ufo/ObsBiasOperator.cc:86-99 | one predictor of one variable, over all locations |
| NonlinearBias.ChannelMask | src/ufo/ObsBiasOperator.cc:53-61 | weight 0 exactly for the channels listed |
| NonlinearBias.TangentLinearIsExact | src/ufo/ObsBiasOperator.cc:76-99 | the bias of b + dx minus that of b is the channel's weight times the tangent linear of dx, static predictors cancelling |
| NonlinearBias.TangentLinearExactIff | src/ufo/ObsBiasOperator.cc:53-99 | the tangent linear is the exact difference exactly for corrected channels, or where it vanishes |
| NonlinearBias.AlwaysExactIff | src/ufo/ObsBiasOperator.cc:53-99 | it is for every increment exactly when the channel is corrected or every variable predictor is zero or missing there |
| NonlinearBias.ExcludedChannelFails | src/ufo/ObsBiasOperator.cc:53-99 | one observation of an excluded channel for which it is not |
| NonlinearBias.LinearizeBias | src/ufo/ObsBiasOperator.cc:76-99 | trajectory (LinearObsBiasOperator.cc:32-45), increment and both operators together: the bias changes by the tangent linear, which is missing exactly where one of the predictors after the static ones is, and by nothing in channels without correction |
| BiasCovariance.ObsBiasCovariance.constructor | src/ufo/ObsBiasCovariance.cc:77-125 | the initial variances, from their limit or from an inflated prior |
| BiasCovariance.InitialEntries | src/ufo/ObsBiasCovariance.cc:77-95 | with or without a prior the preconditioner starts at the step size and the Hessian at zero; without one counts are zero and variances the largest one |
| BiasCovariance.InitialFromPrior | src/ufo/ObsBiasCovariance.cc:96-125 | counted from no more observations than required, a prior is inflated by the ratio for small data sets, and twice if that is the larger ratio; otherwise once by the other; limits apply |
| BiasCovariance.InitialBounded | src/ufo/ObsBiasCovariance.cc:112-125 | they lie between the limits exactly when no inflation ratio and inflated prior have opposite signs |
| BiasCovariance.ObsBiasCovariance.Linearize | src/ufo/ObsBiasCovariance.cc:249-346 | recounts, accumulates, resets and preconditions as specified, or refuses and leaves all as it was |
| BiasCovariance.CountObservations | src/ufo/ObsBiasCovariance.cc:262-271 | how many observations of each variable passed, that is have a zero flag; nothing if flags are not found |
| BiasCovariance.AccumulateHessian | src/ufo/ObsBiasCovariance.cc:297-316 | the diagonal of the Hessian, entry by entry |
| BiasCovariance.HessianIsCurvature | src/ufo/ObsBiasCovariance.cc:280-311 | each entry is the curvature, in that coefficient, of half the squared misfits to all observations with an error, in units of their errors, whatever the departures |
| BiasCovariance.LinearizedIsInverseCurvature | src/ufo/ObsBiasCovariance.cc:327-343 | preconditioner and analysis variances computed from observations are the inverse of that curvature with the background term added |
| BiasCovariance.HessianNonNegative | src/ufo/ObsBiasCovariance.cc:284-311 | which is never negative |
| BiasCovariance.CombinedBounds | src/ufo/ObsBiasCovariance.cc:333-340 | 1 / (1/v + h) lies in (0, v], below v when h is positive |
| BiasCovariance.RunKeepsBounds | src/ufo/ObsBiasCovariance.cc:249-346 | over every run of outer loops the variances stay between their limits and the Hessian non-negative |
| BiasCovariance.RunLoops | src/ufo/ObsBiasCovariance.cc:249-346 | one object, constructed and presented with any sequence of outer loops, goes through the states of such a run and stays within the bounds |
| BiasCovariance.RunVariance | src/ufo/ObsBiasCovariance.cc:319-325 | the first call with too few observations sets a variance to the smallest one for good; otherwise it never changes |
| BiasCovariance.LinearizedIsInformative | src/ufo/ObsBiasCovariance.cc:327-343 | preconditioner and analysis variances computed from observations are positive and do not exceed the variance |
| BiasCovariance.ObsBiasCovariance.MultiplyRoundTrip | src/ufo/ObsBiasCovariance.cc:350-368 | product and inverse product undo each other, in either order |
| CrossVarCov.ObsErrorCrossVarCov.Multiply | src/ufo/errors/ObsErrorCrossVarCov.cc:99-143 | the vector becomes S C S x, computed at each location from its present entries alone, buffers reused |
| CrossVarCov.ObsErrorCrossVarCov.InverseMultiply | src/ufo/errors/ObsErrorCrossVarCov.cc:147-191 | the vector becomes one whose product with C, between two divisions by S, is the input |
| CrossVarCov.GatherIndices | src/ufo/errors/ObsErrorCrossVarCov.cc:106-122 | the indices of the present entries, ascending |
| CrossVarCov.FillBlock | src/ufo/errors/ObsErrorCrossVarCov.cc:112-130 | whatever the reused buffers held, they now hold this location's values and correlations |
| CrossVarCov.BlockPositiveDefinite | src/ufo/errors/ObsErrorCrossVarCov.cc:155-182 | the block of the present entries is positive definite if C is, so the solver may be used |
| CrossVarCov.MultiplyKeepsMissing | src/ufo/errors/ObsErrorCrossVarCov.cc:99-143 | an entry of R x is missing exactly when that of x or the standard deviation is |
| CrossVarCov.MultiplyElement | src/ufo/errors/ObsErrorCrossVarCov.cc:99-143 | the elements of R are the covariances: correlation, 1 for a variable with itself, times both standard deviations |
| CrossVarCov.MultiplySelfAdjoint | src/ufo/errors/ObsErrorCrossVarCov.cc:99-143 | <R x, y> = <x, R y> for symmetric C and equal missing entries |
| CrossVarCov.MultiplyPositive | src/ufo/errors/ObsErrorCrossVarCov.cc:99-143 | <R x, x> is not negative for positive definite C |
| CrossVarCov.MultiplyUndoesInverse | src/ufo/errors/ObsErrorCrossVarCov.cc:99-191 | R after its inverse restores every entry with a standard deviation |
| CrossVarCov.InverseUndoesMultiply | src/ufo/errors/ObsErrorCrossVarCov.cc:99-191 | and the inverse after R |
| Preprocessor.NestingState.UpdatePreprocessor | tools/cpplint.py:2634-2686 | one directive saves, restores or drops checkpoints as specified; unmatched ones do nothing |
| Preprocessor.NestingState.UpdateAll | tools/cpplint.py:2691-2712 | over all lines the stack is the one the first branches alone produce, if no later branch is left open |
| Preprocessor.ErasureStep | tools/cpplint.py:2655-2685 | one line, seen from the erased run, is one step or none |
| Preprocessor.Erasure | tools/cpplint.py:2655-2685 | deleting the later branches commutes with running the stacks, for every sequence of lines, nested or not |
| Preprocessor.ErasedFile | tools/cpplint.py:2646-2652 | in a well-nested file the lines deleted are those from the first else or elif up to its endif, at every depth |
| Preprocessor.WellNestedErasure | tools/cpplint.py:2655-2685 | from any state, a well-nested file and the file without its later branches end in the same state, with the checkpoints of before |
| Preprocessor.FileMeaning | tools/cpplint.py:2634-2686 | from any state a well-nested file takes the stack to the one read off its syntax, each conditional counting with its first branch, and keeps the checkpoints |
| Preprocessor.BranchStartsAtIf | tools/cpplint.py:2669-2670 | every else or elif takes the stack back to what it was before its if, however many branches came before, at every depth |
| Preprocessor.PlaceMeaning | tools/cpplint.py:2634-2686 | at every place inside nested first and later branches the stack is what the lines around it and the first branches before it produce |
| Preprocessor.LaterBranchesDoNotMatter | tools/cpplint.py:2646-2652 | files that differ only in later branches end alike |
| TextInside.ScanBalanced | tools/cpplint.py:4790-4801 | balanced text leaves the stack of expected brackets as it was |
| TextInside.ScanSplits | tools/cpplint.py:4790-4801 | what empties the stack first reads a balanced stretch and then the bracket on top |
| TextInside.ScanIff | tools/cpplint.py:4790-4806 | reading stops after a position exactly when the text before it is balanced and the closing bracket stands there |
| TextInside.EnclosesUnique | tools/cpplint.py:4790-4806 | a bracket is closed in one place at most |
| TextInside.GetTextInside | tools/cpplint.py:4787-4806 | the text up to the bracket that closes the given one; None exactly when none does |

## Left out

- Rounding: all arithmetic is exact, so limits that hold only up to rounding error hold exactly here.
- ioda vectors and Eigen: axpy, per-variable products, entrywise products and quotients that skip missing entries, and the triangular solve are taken as stated in `ObsVectors` and `CrossVarCov`; ioda is not part of this model.
- Files and processes: reading and writing HDF5 is left out (matrices and prior variances are inputs), and gathers and sums over processes are one global vector and a plain sum.
- RecursiveSplitter: the order it presents observations in is an input of `SortObservations` (grouped by band, ascending in longitude), and bins are groups of equal keys; ties and their order are left open.
- `calcDeltaLatLonAndDistanceTo` and `createBuddyPair`: distance and angles are one arbitrary function of two observations, so what the range of longitudes covers is stated along parallels.
- ZonalBands.Zones.AlwaysCoversIff: requires a cosine that falls strictly, and a positive search radius of less than half the parallel at 45 degrees, which itself has a radius of more than 10 km.
- SearchRange.BuddiesAlongParallel: requires the distance along the parallel of the first observation to be less than the search radius, and that observation to lie no nearer a pole than the limit of its band; `NotPairedOutOfRange` and `RangeEnds` show why.
- Posterior.PairIsBayesRule: is about scalars and damping factors of 1; other factors and winds have `PairFactor`.
- BuddyPairFinder.BuddyPairFinder.PairObservations: requires limits of at least 1 on the total and on a band, because the code asserts after each candidate that no count exceeds its limit, and one of at least 0 on buddies of the same station.
- LegacySearch.LegacyAgreesIff: requires the same limits, distances that are at most half the circumference of the globe, and observations sorted as the code sorts them, those further north first at the same longitude.
- BuddySearch.Search.BuddiesArePaired: requires a single band or a search latitude of at least a thousandth of a degree; `SearchesBuddiesIff` shows that it cannot be less.
- BuddyRun.FindAndCheck: requires positive errors of all valid observations and, for data on single levels, positive pressures.
- `getValidObservationIds`, `collectMetaData` and the verbose output: the valid observations and their metadata are inputs, and nothing is claimed about rejected locations.
- `biasTerm`: the saved diagnostics of the bias operator are not modelled, and nothing is claimed about them.
- Copies and aliasing in the linter: stacks are values, so the deep copies are identities; that its in-place edits of the top of the stack never reach a saved copy is not captured.
- Regular expressions of the linter: a line is given as the directive it is and an arbitrary effect on the brace stack, and the opening bracket is given by its position.
- AdjointIdentity: requires y to be missing wherever a predictor of the observation is, as the tangent linear makes its result; `AdjointIdentityIff` drops that and gives the exact condition.
- BuddySweep.CheckData: requires pairs of two different observations (as `FindBuddyPairs` returns), positive errors, a damping factor in [0, 1] and a non-divergence constraint in [0, 1].
- BuddyCheck.CheckVectorVariable: the code stores the first component's flat data for both components, and so does the model; entries outside the index are therefore the first component's.
- ProfileIndex.DeriveIndices: requires that no record has more chosen locations than levels, because the code writes a row before it checks.
- MedianThinning.IdentifyThinnedObservationsMedian: requires, for a minimum count below 1, that every group has a value (the code takes the median of none otherwise), and takes the unqualified `abs` as the absolute value of a real number.
- BiasCovariance.ObsBiasCovariance.Linearize: requires effective errors that are not zero, takes predictors as the numbers stored (the code does not ask whether they are missing), and takes the assimilated variables to be the variables with bias coefficients.
- NonlinearBias.ChannelMask: requires listed channels to be numbers of variables, as the code indexes by them.
- CrossVarCov.ObsErrorCrossVarCov.InverseMultiply: requires standard deviations that are not zero and a positive definite C, as the Cholesky factorisation does.
- GeoVaLs, ObsDiagnostics, Locations and AnalyticInit: calls into Fortran or ioda.
- The other filters, the parameter classes and factories, and the rest of the linter: single decisions and plumbing.
