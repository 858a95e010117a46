TestResult.DisplayName,TestResult.Outcome,TestResult.Duration,TestResult.ResourceCount,RandomSeed
KeezenBoard.RunOpKeepsGood (correctness),Failed,00:00:00.9938445,2208786,2
KeezenBoard.BlockedKeepsGood (correctness),Passed,00:00:00.7134360,1356638,2
KeezenGame.HandMoves (well-formedness),Passed,00:00:00.6926190,767536,2
KeezenStep.Step (well-formedness),Passed,00:00:00.5984773,1008279,2
CarryFinding.NoMainSplit (correctness),Passed,00:00:00.5493941,914532,2
KeezenStep.PlayKeepsDealt (correctness),Passed,00:00:00.5289625,753343,2
KeezenBoard.CarryStaysHome (correctness),Passed,00:00:00.5283081,966893,2
KeezenBoard.OpKeepsGood (correctness),Passed,00:00:00.5180599,892271,2
KeezenStep.StepKeepsDealt (well-formedness),Passed,00:00:00.5115890,585258,2
KeezenGame.AllowedMoves (well-formedness),Passed,00:00:00.4966211,850539,2
KeezenGame.HandMovesCollected (well-formedness),Passed,00:00:00.4810460,430027,2
MejnGame.MovesFound (correctness),Passed,00:00:00.4807308,692261,2
CarryFinding.CarryOverFinding (correctness),Passed,00:00:00.4753723,1185155,2
MejnGame.Step (well-formedness),Passed,00:00:00.4609703,1014955,2
KeezenGame.OpMoves (well-formedness),Passed,00:00:00.4246187,377362,2
CarryFinding.LeadStops (correctness),Passed,00:00:00.4144576,862288,2
KeezenGame.CardMovesCollected (correctness),Passed,00:00:00.4073962,508858,2
CarryFinding.HomeCount (correctness),Passed,00:00:00.3989725,562225,2
Seats.StandardTeamsPartner (correctness),Passed,00:00:00.3979479,697345,2
MejnGame.IsOver (well-formedness),Passed,00:00:00.3928022,568087,2
KeezenStep.InitGame (well-formedness),Passed,00:00:00.3879281,390304,2
KeezenActions.TailMeaning (well-formedness),Passed,00:00:00.3871864,182384,2
CarryFinding.PartnerPath (correctness),Passed,00:00:00.3871553,729443,2
KeezenStep.StepKeepsDealt (correctness),Passed,00:00:00.3860642,688591,2
KeezenBoard.AllowedKeepsBoard (correctness),Passed,00:00:00.3842304,588790,2
KeezenBoard.SwitchKeepsGood (correctness),Passed,00:00:00.3791696,609233,2
KeezenStep.PlayKeepsDealt (well-formedness),Passed,00:00:00.3789114,534335,2
CarryFinding.Lead (correctness),Passed,00:00:00.3764427,607656,2
KeezenGame.IsOver (well-formedness),Passed,00:00:00.3762106,740301,2
CardOps.SplitMovesSpec (well-formedness),Passed,00:00:00.3657063,681039,2
KeezenStep.PlayStep (well-formedness),Passed,00:00:00.3644981,588868,2
CardOps.ChooseShape (correctness),Passed,00:00:00.3644178,931896,2
CardOps.CarryOver (well-formedness),Passed,00:00:00.3594686,914065,2
CardOps.StartMoves (well-formedness),Passed,00:00:00.3573391,608490,2
KeezenStep.AllowedPlayable (correctness),Passed,00:00:00.3501988,527298,2
Moves.HitLands (correctness),Passed,00:00:00.3492807,496673,2
MejnActions.AllowedIdsDistinct (correctness),Passed,00:00:00.3491950,530377,2
KeezenActions.ActionId (well-formedness),Passed,00:00:00.3470819,137172,2
KeezenBoard.CardMoveKeepsGood (correctness),Passed,00:00:00.3401621,418661,2
KeezenGame.CardMoves (well-formedness),Passed,00:00:00.3342347,436004,2
KeezenBoard.AllowedKeepsBoard (well-formedness),Passed,00:00:00.3323313,460802,2
KeezenBoard.PairKeepsGood (correctness),Passed,00:00:00.3292851,443384,2
KeezenStep.AllowedPlayable (well-formedness),Passed,00:00:00.3238945,469344,2
CarryFinding.NoOwnSplit (correctness),Passed,00:00:00.3205916,483730,2
CarryFinding.NoBlockedSplit (correctness),Passed,00:00:00.3196161,269875,2
KeezenGame.RunMadeBy (correctness),Passed,00:00:00.3092590,284797,2
KeezenPaths.PathForMarble (well-formedness),Passed,00:00:00.3063453,220787,2
KeezenGame.HandMovesCollected (correctness),Passed,00:00:00.3047617,543038,2
MejnActions.AllowedIdDecodes (correctness),Passed,00:00:00.3024315,399316,2
CarryFinding.HomeStuck (correctness),Passed,00:00:00.2995009,459228,2
KeezenGame.SplitMadeBy (correctness),Passed,00:00:00.2929538,465076,2
CarryFinding.SceneBoxed (correctness),Passed,00:00:00.2843141,611793,2
MejnActions.AllowedIdsListed (correctness),Passed,00:00:00.2774935,541477,2
CarryFinding.CarryOnlyB0 (correctness),Passed,00:00:00.2764408,514371,2
KeezenBoard.SplitKeepsGood (correctness),Passed,00:00:00.2658339,444257,2
CardOps.SplitMovesShape (correctness),Passed,00:00:00.2635027,400633,2
CarryFinding.OnlySplit (well-formedness),Passed,00:00:00.2623616,368122,2
CarryFinding.CarryOverFinding (well-formedness),Passed,00:00:00.2617585,401433,2
CardOps.RunMoves (well-formedness),Passed,00:00:00.2534452,478760,2
KeezenActions.DecodeAt (correctness),Passed,00:00:00.2472071,496275,2
MejnActions.EncodeDecode (correctness),Passed,00:00:00.2433141,416107,2
CardOps.SplitMoves (well-formedness),Passed,00:00:00.2406785,355803,2
CarryFinding.CarryWithB0 (correctness),Passed,00:00:00.2395397,466695,2
CarryFinding.CorrectedStaysHome (correctness),Passed,00:00:00.2364666,386982,2
MejnGame.AllowedComplete (correctness),Passed,00:00:00.2355780,329172,2
CardOps.SplitMovesSpec (correctness),Passed,00:00:00.2349640,385732,2
CardOps.SplitBlocked (well-formedness),Passed,00:00:00.2345194,469514,2
CarryFinding.CarryOnlyB0 (well-formedness),Passed,00:00:00.2345080,316231,2
MejnPaths.HomeHop (correctness),Passed,00:00:00.2323875,523321,2
CarryFinding.Lead (well-formedness),Passed,00:00:00.2314467,166322,2
KeezenBoard.ChoiceKeepsGood (correctness),Passed,00:00:00.2285466,393401,2
KeezenGame.SwitchMadeBy (correctness),Passed,00:00:00.2197838,436933,2
CarryFinding.CorrectedStaysHome (well-formedness),Passed,00:00:00.2166953,289516,2
MejnGame.OneWinner (correctness),Passed,00:00:00.2159830,416700,2
Moves.MarbleMoveKeepsBoard (correctness),Passed,00:00:00.2158018,447678,2
MejnGame.MoveKeepsBoard (correctness),Passed,00:00:00.2143411,324180,2
MejnPaths.MejnChainRules (correctness),Passed,00:00:00.2098699,137562,2
CarryFinding.NoBlockedSplit (well-formedness),Passed,00:00:00.2097693,232859,2
CarryFinding.NoOwnSplit (well-formedness),Passed,00:00:00.2073502,254435,2
CarryFinding.NoMainSplit (well-formedness),Passed,00:00:00.2071111,282858,2
CarryFinding.OnlySplit (correctness),Passed,00:00:00.2059076,428042,2
CardOps.SplitMovesShape (well-formedness),Passed,00:00:00.2047193,318429,2
MejnPaths.PathForColor (well-formedness),Passed,00:00:00.1990832,151205,2
KeezenActions.TailMeaning (correctness),Passed,00:00:00.1973333,365711,2
MejnPaths.RouteAt (correctness),Passed,00:00:00.1969917,467041,2
KeezenDeal.FirstSeatStep (correctness),Passed,00:00:00.1959305,454804,2
MejnPaths.PathForMarble (well-formedness),Passed,00:00:00.1956976,291125,2
KeezenBoard.PathLegKeepsGood (correctness),Passed,00:00:00.1950042,260753,2
MejnGame.AllowedMoves (well-formedness),Passed,00:00:00.1945798,257774,2
MejnGame.RunKeepsBoard (well-formedness),Passed,00:00:00.1900786,237629,2
CardOps.SplitSingle (well-formedness),Passed,00:00:00.1898577,263059,2
Cards.FlattenUpdate (correctness),Passed,00:00:00.1897907,813770,2
KeezenStep.DealKeepsDealt (correctness),Passed,00:00:00.1882784,324333,2
KeezenPaths.PathForColor (well-formedness),Passed,00:00:00.1877669,197103,2
CarryFinding.CarryWithB0 (well-formedness),Passed,00:00:00.1875659,261840,2
KeezenStep.DealStepCards (correctness),Passed,00:00:00.1847093,580025,2
CarryFinding.AsWrittenSendsBack (correctness),Passed,00:00:00.1818710,344390,2
KeezenGame.StartMadeBy (correctness),Passed,00:00:00.1808491,197731,2
CarryFinding.AsWrittenSendsBack (well-formedness),Passed,00:00:00.1805379,289561,2
MejnGame.ChoiceOf (well-formedness),Passed,00:00:00.1804518,172810,2
MejnGame.RunKeepsBoard (correctness),Passed,00:00:00.1800050,297980,2
CardOps.MainCollected (correctness),Passed,00:00:00.1791878,318879,2
CarryFinding.SceneKinds (correctness),Passed,00:00:00.1791343,462271,2
CardOps.CarryCollected (correctness),Passed,00:00:00.1786029,275213,2
KeezenPaths.KeezenChainRules (correctness),Passed,00:00:00.1782220,244866,2
MejnGame.MovesComplete (correctness),Passed,00:00:00.1780751,225289,2
MejnPaths.HomeRunPaths (correctness),Passed,00:00:00.1765620,158043,2
KeezenBoard.SwitchOpKeepsGood (correctness),Passed,00:00:00.1761803,293582,2
KeezenActions.DecodeEncode (correctness),Passed,00:00:00.1751382,189044,2
KeezenBoard.BlockedKeepsGood (well-formedness),Passed,00:00:00.1749829,225335,2
CardOps.SplitBlockedLegs (correctness),Passed,00:00:00.1745766,317174,2
KeezenBoard.OpKeepsGood (well-formedness),Passed,00:00:00.1720350,364143,2
CardOps.SplitBlockedLegs (well-formedness),Passed,00:00:00.1713141,237203,2
CarryFinding.GreenHops (correctness),Passed,00:00:00.1707266,251710,2
CardOps.CarryFor (well-formedness),Passed,00:00:00.1684392,254793,2
CardOps.SwitchExchanges (correctness),Passed,00:00:00.1680365,265762,2
KeezenGame.NoneBefore (well-formedness),Passed,00:00:00.1678005,20797,2
CardOps.CarryOverShape (well-formedness),Passed,00:00:00.1673581,244857,2
KeezenBoard.LegsKeepGood (well-formedness),Passed,00:00:00.1672177,205566,2
MejnGame.StepKeepsBoard (correctness),Passed,00:00:00.1666850,249805,2
CardOps.PairAfter (well-formedness),Passed,00:00:00.1663252,292176,2
KeezenBoard.CarryOverKeepsGood (correctness),Passed,00:00:00.1654393,319975,2
KeezenStep.PlayKeepsColours (correctness),Passed,00:00:00.1654186,190713,2
MejnActions.RunRoundTrip (correctness),Passed,00:00:00.1652338,326755,2
CardOps.CarryOverShape (correctness),Passed,00:00:00.1651014,279876,2
KeezenActions.PositionMeaning (correctness),Passed,00:00:00.1650329,311800,2
CardOps.ChosenShape (well-formedness),Passed,00:00:00.1639141,248279,2
CardOps.MainCollected (well-formedness),Passed,00:00:00.1626526,294857,2
MejnGame.OneWinner (well-formedness),Passed,00:00:00.1623443,76091,2
CardOps.PairOrBlocked (correctness),Passed,00:00:00.1619176,223800,2
KeezenBoard.RunBound (well-formedness),Passed,00:00:00.1605585,35443,2
KeezenBoard.LegsKeepGood (correctness),Passed,00:00:00.1591121,282312,2
MejnGame.AllowedChoices (correctness),Passed,00:00:00.1581386,234994,2
CardOps.CarryFacts (correctness),Passed,00:00:00.1576262,261832,2
CardOps.SplitPairLegs (correctness),Passed,00:00:00.1575852,326740,2
MejnPaths.MejnChainRules (well-formedness),Passed,00:00:00.1573038,102944,2
KeezenBoard.StartKeepsGood (correctness),Passed,00:00:00.1569572,201681,2
CarryFinding.PenStuck (correctness),Passed,00:00:00.1558820,322678,2
KeezenPaths.HomeOnlyAtEnd (correctness),Passed,00:00:00.1554179,431902,2
KeezenDeal.DealFromUnroll (correctness),Passed,00:00:00.1550755,64904,2
CardOps.AfterMoveIsPlay (correctness),Passed,00:00:00.1548695,352948,2
KeezenBoard.PathLegKeepsGood (well-formedness),Passed,00:00:00.1542398,195941,2
KeezenStep.InitDealt (correctness),Passed,00:00:00.1523973,212356,2
CardOps.BlockerIsOther (correctness),Passed,00:00:00.1512598,276463,2
MejnActions.AllowedIdDecodes (well-formedness),Passed,00:00:00.1510960,251512,2
KeezenBoard.PathEnd (correctness),Passed,00:00:00.1503945,153426,2
KeezenBoard.RunKeepsGood (well-formedness),Passed,00:00:00.1502455,197624,2
BoardState.WaitingMarble (well-formedness),Passed,00:00:00.1495421,281348,2
KeezenBoard.RunKeepsGood (correctness),Passed,00:00:00.1488138,234280,2
CardOps.MainSplits (well-formedness),Passed,00:00:00.1479961,342102,2
Cards.ResetCards (well-formedness),Passed,00:00:00.1464915,119198,2
CardOps.ChooseShape (well-formedness),Passed,00:00:00.1464044,247428,2
KeezenStep.InitCardsDealt (well-formedness),Passed,00:00:00.1458562,194183,2
MejnGame.AllowedSound (well-formedness),Passed,00:00:00.1454386,211747,2
CardOps.SplitPair (well-formedness),Passed,00:00:00.1441875,222938,2
KeezenBoard.InitialBoardGood (correctness),Passed,00:00:00.1441564,73098,2
CarryFinding.LeadLegPlayed (correctness),Passed,00:00:00.1439224,150260,2
MejnGame.ChoiceKinds (well-formedness),Passed,00:00:00.1434536,177511,2
KeezenActions.ActionIdDecodes (correctness),Passed,00:00:00.1423896,293863,2
KeezenGame.RewardTotal (correctness),Passed,00:00:00.1408649,283423,2
MejnPaths.MejnHopRules (well-formedness),Passed,00:00:00.1407098,64975,2
CardOps.StartHit (well-formedness),Passed,00:00:00.1401648,145032,2
KeezenBoard.LeadLegFree (well-formedness),Passed,00:00:00.1399631,153452,2
KeezenPaths.HopFacts (correctness),Passed,00:00:00.1394481,132034,2
MejnGame.MovesSound (correctness),Passed,00:00:00.1393536,249485,2
Moves.PutKeepsBoard (correctness),Passed,00:00:00.1393087,328649,2
KeezenBoard.CarryStaysHome (well-formedness),Passed,00:00:00.1384304,212675,2
KeezenStep.InitColours (correctness),Passed,00:00:00.1384231,283444,2
KeezenDeal.LaterSeatStep (well-formedness),Passed,00:00:00.1384199,83544,2
Paths.Hop (well-formedness),Passed,00:00:00.1380520,95817,2
KeezenPaths.WaitIsStuck (correctness),Passed,00:00:00.1365983,205070,2
KeezenPaths.FourBackFromStart (correctness),Passed,00:00:00.1365393,248646,2
Paths.FirstAllowed (well-formedness),Passed,00:00:00.1359661,105136,2
KeezenStep.Transition (well-formedness),Passed,00:00:00.1356893,262173,2
MejnActions.AllowedIdsListed (well-formedness),Passed,00:00:00.1350845,241388,2
MejnPaths.HomeEnds (correctness),Passed,00:00:00.1349600,165259,2
Cards.PlayConserves (correctness),Passed,00:00:00.1349284,299437,2
KeezenPaths.HopAt (correctness),Passed,00:00:00.1342453,106584,2
CarryFinding.HomeFull (well-formedness),Passed,00:00:00.1337324,166651,2
KeezenStep.InitDealt (well-formedness),Passed,00:00:00.1327249,193414,2
MejnGame.ChoiceKinds (correctness),Passed,00:00:00.1326203,230624,2
KeezenBoard.SingleKeepsGood (well-formedness),Passed,00:00:00.1323872,201786,2
MejnGame.RunOf (well-formedness),Passed,00:00:00.1319471,256597,2
MejnPaths.TrackWalks (correctness),Passed,00:00:00.1318318,150760,2
KeezenDeal.DealFromSeat (correctness),Passed,00:00:00.1317594,459309,2
KeezenStep.DealKeepsCards (correctness),Passed,00:00:00.1316793,328249,2
KeezenBoard.ChoiceKeepsGood (well-formedness),Passed,00:00:00.1311569,244010,2
Moves.HitAlwaysLands (correctness),Passed,00:00:00.1298793,84802,2
CardOps.Choose (well-formedness),Passed,00:00:00.1289773,233384,2
CarryFinding.SceneField (well-formedness),Passed,00:00:00.1289465,244402,2
KeezenBoard.PathEnd (well-formedness),Passed,00:00:00.1288214,142357,2
KeezenStep.DealStepOk (correctness),Passed,00:00:00.1287958,233193,2
KeezenBoard.LegKeepsGood (correctness),Passed,00:00:00.1281573,233013,2
CardOps.CarryForAsWritten (well-formedness),Passed,00:00:00.1273837,213799,2
Cards.DealCard (well-formedness),Passed,00:00:00.1272631,87644,2
KeezenActions.RawAction (well-formedness),Passed,00:00:00.1268180,170648,2
MejnPaths.HomeRun (correctness),Passed,00:00:00.1263306,209717,2
CardOps.CarryFacts (well-formedness),Passed,00:00:00.1260323,238321,2
KeezenBoard.PairKeepsGood (well-formedness),Passed,00:00:00.1257308,214815,2
BoardState.FinishedIffAllHome (correctness),Passed,00:00:00.1256853,209080,2
KeezenBoard.PathEndField (well-formedness),Passed,00:00:00.1254580,135505,2
MejnGame.MarbleChoices (well-formedness),Passed,00:00:00.1253603,272687,2
Cards.SuitValue (well-formedness),Passed,00:00:00.1249518,11798,2
KeezenActions.BodyOfCode (correctness),Passed,00:00:00.1247442,134988,2
KeezenStep.DealStep (well-formedness),Passed,00:00:00.1241290,212703,2
KeezenPaths.ForwardHomeHop (well-formedness),Passed,00:00:00.1240855,102107,2
KeezenBoard.PlayTwo (correctness),Passed,00:00:00.1229908,195464,2
Cards.ValueOfRank (well-formedness),Passed,00:00:00.1229692,197043,2
CardOps.SwitchMovesSpec (correctness),Passed,00:00:00.1215179,209181,2
MejnGame.AllowedSound (correctness),Passed,00:00:00.1207603,245000,2
CardOps.SwitchCollected (correctness),Passed,00:00:00.1205571,262348,2
BoardState.WaitHeadIsLowest (correctness),Passed,00:00:00.1204379,219818,2
BoardState.PutOnFreeWaitField (correctness),Passed,00:00:00.1202081,206040,2
KeezenStep.InitCardsDealt (correctness),Passed,00:00:00.1193785,275994,2
MejnPaths.HomeRunPaths (well-formedness),Passed,00:00:00.1188085,129980,2
MejnPaths.PathAlongRoute (well-formedness),Passed,00:00:00.1177513,125104,2
KeezenStep.InitColours (well-formedness),Passed,00:00:00.1177125,181355,2
Moves.ApplyHits (well-formedness),Passed,00:00:00.1170010,57641,2
MejnPaths.TrackPaths (correctness),Passed,00:00:00.1167594,130823,2
CardOps.CarryCollected (well-formedness),Passed,00:00:00.1163494,227595,2
KeezenActions.Slots (well-formedness),Passed,00:00:00.1161932,268462,2
KeezenPaths.ForwardHomeHop (correctness),Passed,00:00:00.1156831,127721,2
KeezenActions.MarbleCode (well-formedness),Passed,00:00:00.1155564,156368,2
BoardState.MarbleIdx (well-formedness),Passed,00:00:00.1146649,3671,2
MejnPaths.HomeWalks (correctness),Passed,00:00:00.1145664,132898,2
CarryFinding.SceneGood (correctness),Passed,00:00:00.1140699,76277,2
Layout.AdjacencyShape (correctness),Passed,00:00:00.1129351,645278,2
KeezenPaths.HopRules (well-formedness),Passed,00:00:00.1126058,75985,2
KeezenBoard.SingleKeepsGood (correctness),Passed,00:00:00.1125161,232586,2
CarryFinding.PenFree (correctness),Passed,00:00:00.1124043,167261,2
KeezenActions.PathShape (correctness),Passed,00:00:00.1121509,104724,2
KeezenBoard.LegKeepsGood (well-formedness),Passed,00:00:00.1120597,110273,2
KeezenPaths.ForwardAtOwnJunction (correctness),Passed,00:00:00.1118938,293509,2
MejnPaths.JunctionHop (correctness),Passed,00:00:00.1114626,158370,2
KeezenPaths.WaitIsStuck (well-formedness),Passed,00:00:00.1114122,117996,2
KeezenPaths.OwnerBlocksStart (correctness),Passed,00:00:00.1109059,314384,2
MejnPaths.HomeEnds (well-formedness),Passed,00:00:00.1108819,79216,2
CardOps.HomeMobility (well-formedness),Passed,00:00:00.1107672,221863,2
Rules.ScheduleUsesDeck (well-formedness),Passed,00:00:00.1102847,60009,2
KeezenPaths.PathOnBoard (well-formedness),Passed,00:00:00.1102016,116942,2
CardOps.ChosenShape (correctness),Passed,00:00:00.1098594,250078,2
KeezenPaths.HopRules (correctness),Passed,00:00:00.1094945,80571,2
Paths.HopLink (correctness),Passed,00:00:00.1092098,100943,2
KeezenStep.PlayKeepsCards (correctness),Passed,00:00:00.1080672,123152,2
KeezenStep.DealKeepsCards (well-formedness),Passed,00:00:00.1077638,149260,2
MejnPaths.PathAlongRoute (correctness),Passed,00:00:00.1074541,143625,2
KeezenPaths.ForwardPathHomeIsOneWay (correctness),Passed,00:00:00.1074009,142981,2
KeezenActions.Decode (well-formedness),Passed,00:00:00.1071421,61883,2
CardOps.ChoicesCollected (correctness),Passed,00:00:00.1070721,123422,2
MejnGame.ChoiceFacts (correctness),Passed,00:00:00.1069594,205500,2
KeezenStep.Restock (well-formedness),Passed,00:00:00.1061144,76059,2
Layout.WaitListExact (correctness),Passed,00:00:00.1059457,812252,2
Layout.MejnBoardFacts (well-formedness),Passed,00:00:00.1057892,80732,2
CarryFinding.SceneInjective (correctness),Passed,00:00:00.1057479,254370,2
KeezenActions.RestDecoded (correctness),Passed,00:00:00.1051145,191525,2
CarryFinding.HomeFull (correctness),Passed,00:00:00.1048818,215034,2
BoardState.PutFacts (correctness),Passed,00:00:00.1048606,122129,2
KeezenDeal.DealFromConserves (correctness),Passed,00:00:00.1030092,190885,2
KeezenPaths.ChainOnBoard (well-formedness),Passed,00:00:00.1028183,96819,2
KeezenPaths.BackHopOnTrack (correctness),Passed,00:00:00.1027203,222823,2
KeezenBoard.LastNotWait (correctness),Passed,00:00:00.1026510,168392,2
CardOps.Choices (well-formedness),Passed,00:00:00.1025872,162210,2
MejnPaths.TrackWalks (well-formedness),Passed,00:00:00.1021575,104227,2
KeezenPaths.HomePathLeaves (correctness),Passed,00:00:00.1020170,186591,2
BoardState.MarblesOnKindHead (correctness),Passed,00:00:00.1019684,258549,2
KeezenBoard.NeighbourNotWait (correctness),Passed,00:00:00.1016425,599311,2
BoardState.ResetMarbles (well-formedness),Passed,00:00:00.1015232,214609,2
MejnGame.AllowedComplete (well-formedness),Passed,00:00:00.1011911,201114,2
KeezenBoard.StartKeepsGood (well-formedness),Passed,00:00:00.1010145,141514,2
KeezenActions.ActionIdDecodes (well-formedness),Passed,00:00:00.1002964,164961,2
KeezenPaths.HopFacts (well-formedness),Passed,00:00:00.1001738,99945,2
BoardState.FullPenHasNoFreeField (correctness),Passed,00:00:00.0997186,233179,2
KeezenDeal.DealCardsShares (correctness),Passed,00:00:00.0991171,263180,2
CarryFinding.GreenHops (well-formedness),Passed,00:00:00.0986529,80740,2
CardOps.CarryForVsAsWritten (correctness),Passed,00:00:00.0986391,247025,2
KeezenStep.DealKeepsDealt (well-formedness),Passed,00:00:00.0981669,192691,2
MejnGame.InitialPens (correctness),Passed,00:00:00.0966850,104123,2
MejnPaths.TrackPaths (well-formedness),Passed,00:00:00.0964067,132836,2
MejnPaths.HomeWalks (well-formedness),Passed,00:00:00.0961868,101200,2
CardOps.CarryForVsAsWritten (well-formedness),Passed,00:00:00.0960801,227565,2
KeezenBoard.LeadLegFree (correctness),Passed,00:00:00.0937971,179771,2
Rules.DeckFacts (correctness),Passed,00:00:00.0935614,84517,2
CardOps.PairOrBlocked (well-formedness),Passed,00:00:00.0933029,223269,2
Cards.DealConserves (correctness),Passed,00:00:00.0931570,254538,2
KeezenActions.PathShape (well-formedness),Passed,00:00:00.0930141,57714,2
CardOps.StartHit (correctness),Passed,00:00:00.0929115,178293,2
KeezenPaths.PathOnBoard (correctness),Passed,00:00:00.0915853,134064,2
CardOps.AfterMove (well-formedness),Passed,00:00:00.0914948,167400,2
KeezenGame.KeepsCovers (correctness),Passed,00:00:00.0911932,58622,2
KeezenPaths.BackwardOntoOwnStart (correctness),Passed,00:00:00.0909710,140901,2
Cards.ShuffleKeys (well-formedness),Passed,00:00:00.0907609,237598,2
MejnPaths.TrackHop (correctness),Passed,00:00:00.0897363,254899,2
Cards.Shuffle (well-formedness),Passed,00:00:00.0896020,182885,2
CardOps.RunFor (well-formedness),Passed,00:00:00.0891451,229903,2
CardOps.SplitPairLegs (well-formedness),Passed,00:00:00.0884576,222606,2
CarryFinding.SecondLegHits (correctness),Passed,00:00:00.0882171,172329,2
MejnActions.TableFront (correctness),Passed,00:00:00.0881814,481285,2
BoardState.InitialBoardFacts (correctness),Passed,00:00:00.0878349,303305,2
KeezenPaths.BackFromStart (correctness),Passed,00:00:00.0876528,112810,2
CarryFinding.SceneHomes (correctness),Passed,00:00:00.0873929,144993,2
MejnActions.DecodeEncode (correctness),Passed,00:00:00.0869655,51573,2
KeezenPaths.ForwardPathHomeIsOneWay (well-formedness),Passed,00:00:00.0864147,131987,2
BoardState.ResetStep (correctness),Passed,00:00:00.0863446,125514,2
KeezenDeal.LaterSeatStep (correctness),Passed,00:00:00.0861632,172976,2
Layout.MejnBoardFacts (correctness),Passed,00:00:00.0857924,203025,2
BoardState.FullPenHoldsAll (correctness),Passed,00:00:00.0857097,155053,2
Layout.NextHasPrev (correctness),Passed,00:00:00.0846821,472357,2
KeezenActions.DecodeBody (well-formedness),Passed,00:00:00.0842109,49202,2
CardOps.CarryLead (well-formedness),Passed,00:00:00.0841788,189806,2
KeezenPaths.KeezenChainRules (well-formedness),Passed,00:00:00.0839682,123733,2
Paths.ChainIsWalk (correctness),Passed,00:00:00.0837114,323866,2
Layout.LastHomeField (well-formedness),Passed,00:00:00.0836886,41836,2
KeezenPaths.PathLeaves (well-formedness),Passed,00:00:00.0831246,122477,2
KeezenActions.TailRoundTrip (correctness),Passed,00:00:00.0829172,78440,2
CardOps.BlockedByOwnMarble (well-formedness),Passed,00:00:00.0827086,292466,2
KeezenDeal.DealCardsShares (well-formedness),Passed,00:00:00.0813418,110060,2
KeezenStep.DealStepCards (well-formedness),Passed,00:00:00.0811822,128501,2
KeezenActions.EncodeDecode (well-formedness),Passed,00:00:00.0803235,72256,2
MejnGame.InitialNotOver (correctness),Passed,00:00:00.0801313,188690,2
MejnGame.StartKeepsBoard (correctness),Passed,00:00:00.0801261,136997,2
Layout.PrevHasNext (correctness),Passed,00:00:00.0799438,461023,2
Moves.SendBack (correctness),Passed,00:00:00.0799132,177475,2
CarryFinding.PlayHit (correctness),Passed,00:00:00.0798845,146325,2
Layout.WaitField (well-formedness),Passed,00:00:00.0798736,54004,2
BoardState.AllMarbles (well-formedness),Passed,00:00:00.0796792,134335,2
CardOps.PutKeepsPens (correctness),Passed,00:00:00.0796434,109734,2
KeezenPaths.ChainOnBoard (correctness),Passed,00:00:00.0795417,133833,2
KeezenPaths.WalkFourBack (correctness),Passed,00:00:00.0793417,159206,2
CardOps.FirstAway (well-formedness),Passed,00:00:00.0790153,106842,2
KeezenStep.StockLeft (well-formedness),Passed,00:00:00.0782039,60346,2
KeezenStep.PlayKeepsColours (well-formedness),Passed,00:00:00.0781566,153804,2
CarryFinding.HomeCount (well-formedness),Passed,00:00:00.0772348,86884,2
MejnActions.TableEntryDecodes (correctness),Passed,00:00:00.0771360,83569,2
Paths.FullChainIsWalk (correctness),Passed,00:00:00.0767007,113131,2
KeezenStep.ScheduleSums (correctness),Passed,00:00:00.0767000,147269,2
CardOps.SwitchMoves (well-formedness),Passed,00:00:00.0763688,190033,2
KeezenActions.IdParts (well-formedness),Passed,00:00:00.0752969,73752,2
CardOps.SwitchCollected (well-formedness),Passed,00:00:00.0747112,127766,2
KeezenPaths.HomeIsOneWay (correctness),Passed,00:00:00.0746362,123341,2
KeezenBoard.PathEndField (correctness),Passed,00:00:00.0734493,142324,2
KeezenActions.TailDecoded (correctness),Passed,00:00:00.0729727,85379,2
KeezenActions.TailDecoded (well-formedness),Passed,00:00:00.0722333,32652,2
CardOps.SwitchMovesSpec (well-formedness),Passed,00:00:00.0720636,183622,2
CardOps.BlockerIsOther (well-formedness),Passed,00:00:00.0713703,156650,2
KeezenPaths.BackFromJunction (well-formedness),Passed,00:00:00.0712897,80790,2
KeezenGame.AddsEarliest (correctness),Passed,00:00:00.0712691,103464,2
MejnActions.TableListsIds (correctness),Passed,00:00:00.0711631,418954,2
Cards.PlayShift (correctness),Passed,00:00:00.0709870,191985,2
KeezenActions.DecodeTail (well-formedness),Passed,00:00:00.0708499,25919,2
CarryFinding.Boxed (well-formedness),Passed,00:00:00.0707098,110216,2
KeezenGame.RewardTotal (well-formedness),Passed,00:00:00.0706936,110038,2
BoardState.InitialBoard (well-formedness),Passed,00:00:00.0697453,75571,2
MejnGame.InitGame (well-formedness),Passed,00:00:00.0695645,129621,2
KeezenActions.CodeRest (well-formedness),Passed,00:00:00.0691815,39013,2
KeezenPaths.HomeIsOneWay (well-formedness),Passed,00:00:00.0691013,102517,2
KeezenActions.BodyDecoded (correctness),Passed,00:00:00.0681084,82427,2
KeezenDeal.DealFrom (well-formedness),Passed,00:00:00.0674275,131513,2
KeezenGame.KeepsEarliest (correctness),Passed,00:00:00.0665633,75206,2
CarryFinding.SceneHomes (well-formedness),Passed,00:00:00.0657977,33811,2
Rules.CardOpsOf (well-formedness),Passed,00:00:00.0652343,182878,2
MejnPaths.HomeHop (well-formedness),Passed,00:00:00.0651860,79270,2
BoardState.Reset (well-formedness),Passed,00:00:00.0649297,163659,2
KeezenPaths.BackHopOnTrack (well-formedness),Passed,00:00:00.0647331,76999,2
Paths.WalkConcat (correctness),Passed,00:00:00.0644486,235551,2
KeezenBoard.LastNotWait (well-formedness),Passed,00:00:00.0642916,126792,2
KeezenBoard.SwitchKeepsGood (well-formedness),Passed,00:00:00.0636202,114015,2
KeezenActions.BodyDecoded (well-formedness),Passed,00:00:00.0633227,66611,2
KeezenPaths.HopAt (well-formedness),Passed,00:00:00.0631890,96589,2
Paths.WalkIsChain (correctness),Passed,00:00:00.0630755,141901,2
KeezenStep.DealStepOk (well-formedness),Passed,00:00:00.0630181,115396,2
MejnActions.TableMiddle (correctness),Passed,00:00:00.0628285,277481,2
KeezenActions.EncodeDecode (correctness),Passed,00:00:00.0627267,98619,2
KeezenActions.SwitchTail (well-formedness),Passed,00:00:00.0623925,69322,2
KeezenPaths.RingChain (correctness),Passed,00:00:00.0618462,190517,2
Paths.PathFrom (well-formedness),Passed,00:00:00.0617578,123079,2
KeezenActions.TrackStep (correctness),Passed,00:00:00.0616238,247390,2
KeezenPaths.RingChainLeaves (correctness),Passed,00:00:00.0612601,139824,2
MejnActions.TableEntryDecodes (well-formedness),Passed,00:00:00.0605749,55753,2
KeezenActions.BodyOfCode (well-formedness),Passed,00:00:00.0603274,65143,2
KeezenPaths.RingHop (well-formedness),Passed,00:00:00.0602210,52379,2
KeezenPaths.RingPathLeaves (correctness),Passed,00:00:00.0598851,145820,2
KeezenActions.IdJoin (correctness),Passed,00:00:00.0597525,174696,2
Rules.OpsByRank (correctness),Passed,00:00:00.0596434,150371,2
MejnPaths.MejnHopRules (correctness),Passed,00:00:00.0591630,71939,2
KeezenStep.StockSchedule (correctness),Passed,00:00:00.0587515,115167,2
CarryFinding.ScenePlaced (correctness),Passed,00:00:00.0583951,50290,2
MejnActions.Decode (well-formedness),Passed,00:00:00.0583917,37560,2
MejnPaths.RouteHopJunction (correctness),Passed,00:00:00.0583848,238008,2
KeezenPaths.PrevOffHome (correctness),Passed,00:00:00.0583265,186682,2
KeezenPaths.FirstHop (correctness),Passed,00:00:00.0583263,151649,2
KeezenGame.AddsFromHand (correctness),Passed,00:00:00.0580145,16030,2
MejnPaths.RouteHopLast (correctness),Passed,00:00:00.0576406,175223,2
CardOps.SwitchWith (well-formedness),Passed,00:00:00.0568749,105764,2
KeezenActions.IdParts (correctness),Passed,00:00:00.0560764,71163,2
KeezenGame.Dedup (well-formedness),Passed,00:00:00.0560623,99190,2
KeezenStep.PlayKeepsCards (well-formedness),Passed,00:00:00.0557729,113373,2
KeezenPaths.ForwardAtOwnJunction (well-formedness),Passed,00:00:00.0553886,85919,2
KeezenPaths.BackFromStartHops (correctness),Passed,00:00:00.0553596,82791,2
CardOps.ChoicesFor (well-formedness),Passed,00:00:00.0545445,94371,2
Layout.NeighboursAreFields (correctness),Passed,00:00:00.0539709,190638,2
KeezenPaths.BackFromStart (well-formedness),Passed,00:00:00.0539395,78134,2
KeezenPaths.PathOffHome (correctness),Passed,00:00:00.0537878,135847,2
KeezenPaths.FirstHop (well-formedness),Passed,00:00:00.0537656,123834,2
CardOps.SamePens (correctness),Passed,00:00:00.0532398,94529,2
KeezenActions.AheadIsCount (correctness),Passed,00:00:00.0528037,120886,2
BoardState.Put (well-formedness),Passed,00:00:00.0527137,126084,2
KeezenPaths.PathOffHome (well-formedness),Passed,00:00:00.0520333,126259,2
MejnActions.TableBack (correctness),Passed,00:00:00.0519409,292263,2
KeezenPaths.PathLeaves (correctness),Passed,00:00:00.0516182,146601,2
KeezenActions.PositionOrder (well-formedness),Passed,00:00:00.0509199,69387,2
BoardState.EmptyWaitField (well-formedness),Passed,00:00:00.0508090,184984,2
KeezenPaths.OwnerBlocksStart (well-formedness),Passed,00:00:00.0502975,79949,2
Layout.StartListExact (correctness),Passed,00:00:00.0502497,81372,2
KeezenDeal.ReceivedFirst (correctness),Passed,00:00:00.0502260,172320,2
Layout.FieldListsIncreasing (correctness),Passed,00:00:00.0501452,147022,2
KeezenActions.PositionOrder (correctness),Passed,00:00:00.0499784,84007,2
Layout.HomeListExact (correctness),Passed,00:00:00.0492227,197987,2
BoardState.MarblesOnKind (well-formedness),Passed,00:00:00.0491999,97323,2
KeezenGame.IsRoundOver (well-formedness),Passed,00:00:00.0486858,48207,2
KeezenActions.SlotsDistinct (correctness),Passed,00:00:00.0481411,72849,2
KeezenPaths.HomePathLeaves (well-formedness),Passed,00:00:00.0481357,128664,2
KeezenActions.PathStep (correctness),Passed,00:00:00.0475318,137511,2
BoardState.WaitHeadIsLowest (well-formedness),Passed,00:00:00.0472269,84701,2
Cards.PlayCards (well-formedness),Passed,00:00:00.0471626,115659,2
KeezenActions.PositionsDistinct (correctness),Passed,00:00:00.0470273,75385,2
Common.Collect (well-formedness),Passed,00:00:00.0469479,75075,2
KeezenActions.RestDecoded (well-formedness),Passed,00:00:00.0468964,70886,2
MejnPaths.RouteHopTrack (correctness),Passed,00:00:00.0467725,101240,2
KeezenPaths.BackFromJunction (correctness),Passed,00:00:00.0467643,117064,2
Paths.HopLink (well-formedness),Passed,00:00:00.0466912,96964,2
KeezenActions.AheadIsCount (well-formedness),Passed,00:00:00.0466730,12820,2
KeezenPaths.RingChainLeaves (well-formedness),Passed,00:00:00.0466394,103642,2
KeezenPaths.RingPathLeaves (well-formedness),Passed,00:00:00.0464714,128390,2
CarryFinding.PlayQuiet (correctness),Passed,00:00:00.0463839,98347,2
MejnPaths.SixFrom41 (correctness),Passed,00:00:00.0462702,78970,2
KeezenActions.SplitTail (well-formedness),Passed,00:00:00.0458405,65497,2
KeezenPaths.BackFromStartHops (well-formedness),Passed,00:00:00.0458391,80790,2
Rules.ScheduleUsesDeck (correctness),Passed,00:00:00.0454468,160032,2
KeezenPaths.HomeOnlyAtEnd (well-formedness),Passed,00:00:00.0453879,121727,2
KeezenPaths.FourBackFromStart (well-formedness),Passed,00:00:00.0453245,121210,2
Moves.MarbleMoveKeepsBoard (well-formedness),Passed,00:00:00.0453202,104504,2
MejnActions.RawAction (well-formedness),Passed,00:00:00.0451344,53003,2
Moves.PutKeepsBoard (well-formedness),Passed,00:00:00.0450570,76434,2
CarryFinding.FiveHops (correctness),Passed,00:00:00.0446900,64840,2
MejnPaths.RouteHop (correctness),Passed,00:00:00.0440659,63959,2
CardOps.SwitchOf (well-formedness),Passed,00:00:00.0439119,85799,2
MejnPaths.TwoFrom40 (correctness),Passed,00:00:00.0435880,42300,2
KeezenPaths.RingHopBack (correctness),Passed,00:00:00.0434062,376873,2
KeezenDeal.DealCardOthers (well-formedness),Passed,00:00:00.0434034,51040,2
KeezenStep.StockSchedule (well-formedness),Passed,00:00:00.0429090,77354,2
CardOps.AfterMoveIsPlay (well-formedness),Passed,00:00:00.0425964,91195,2
Moves.HitLands (well-formedness),Passed,00:00:00.0423725,103809,2
CardOps.LenChoices (well-formedness),Passed,00:00:00.0417326,85021,2
KeezenPaths.WalkFourBack (well-formedness),Passed,00:00:00.0415446,100831,2
MejnPaths.RouteHopHome (correctness),Passed,00:00:00.0414445,85889,2
CarryFinding.TwoHopsThenStop (correctness),Passed,00:00:00.0413675,44661,2
Rules.InitializeCards (well-formedness),Passed,00:00:00.0413211,97640,2
KeezenActions.MarblePosition (well-formedness),Passed,00:00:00.0406595,72729,2
KeezenActions.CellRoundTrip (correctness),Passed,00:00:00.0401329,47694,2
KeezenActions.CellIndexInverse (correctness),Passed,00:00:00.0399620,107990,2
KeezenActions.EncodeParts (correctness),Passed,00:00:00.0398215,62184,2
Cards.InitialCardState (well-formedness),Passed,00:00:00.0396873,61298,2
KeezenPaths.RingChain (well-formedness),Passed,00:00:00.0394987,108519,2
CarryFinding.PlayHit (well-formedness),Passed,00:00:00.0393778,67819,2
KeezenGame.AddsCovers (correctness),Passed,00:00:00.0392546,71539,2
CarryFinding.PenFree (well-formedness),Passed,00:00:00.0392385,76977,2
KeezenActions.PositionMeaning (well-formedness),Passed,00:00:00.0390753,72965,2
MejnPaths.Route (well-formedness),Passed,00:00:00.0387672,70872,2
KeezenActions.CellNextLast (correctness),Passed,00:00:00.0387652,73788,2
KeezenStep.Switches (well-formedness),Passed,00:00:00.0387134,65566,2
CardOps.SwitchExchanges (well-formedness),Passed,00:00:00.0384666,82902,2
Seats.JoinTeam (well-formedness),Passed,00:00:00.0380509,57266,2
KeezenStep.ScheduleSums (well-formedness),Passed,00:00:00.0380457,68350,2
MejnPaths.RouteHopLast (well-formedness),Passed,00:00:00.0380402,33923,2
BoardState.ResetStep (well-formedness),Passed,00:00:00.0380150,74584,2
KeezenDeal.DealFromConserves (well-formedness),Passed,00:00:00.0379968,55926,2
KeezenActions.PathIndexInverse (well-formedness),Passed,00:00:00.0375676,33803,2
KeezenDeal.DealCards (well-formedness),Passed,00:00:00.0372745,67398,2
Moves.HitMoves (well-formedness),Passed,00:00:00.0372451,65633,2
Moves.HitAlwaysLands (well-formedness),Passed,00:00:00.0372297,65869,2
Cards.DealConserves (well-formedness),Passed,00:00:00.0370360,50738,2
KeezenDeal.DealFromUnroll (well-formedness),Passed,00:00:00.0369869,53389,2
KeezenActions.IdJoin (well-formedness),Passed,00:00:00.0368320,36030,2
CardOps.OwnHomeAfter (well-formedness),Passed,00:00:00.0366339,54300,2
BoardState.FieldOfOnInjective (well-formedness),Passed,00:00:00.0365976,28065,2
MejnActions.EncodeDecode (well-formedness),Passed,00:00:00.0365023,43546,2
KeezenActions.CellNextJunction (correctness),Passed,00:00:00.0364908,52972,2
KeezenBoard.HomesOwned (well-formedness),Passed,00:00:00.0363865,33452,2
BoardState.FreeWaitFieldExists (correctness),Passed,00:00:00.0361335,65902,2
CardOps.TwoLegs (well-formedness),Passed,00:00:00.0361306,99092,2
KeezenGame.FirstAt (well-formedness),Passed,00:00:00.0359684,27110,2
Paths.WalkPrefix (correctness),Passed,00:00:00.0357971,134145,2
MejnPaths.RouteHopJunction (well-formedness),Passed,00:00:00.0357589,36766,2
KeezenDeal.FirstSeatStep (well-formedness),Passed,00:00:00.0357406,75425,2
Paths.KeezenAllowed (well-formedness),Passed,00:00:00.0356900,55909,2
BoardState.FullPenHoldsAll (well-formedness),Passed,00:00:00.0356511,52721,2
Cards.RemoveFirst (well-formedness),Passed,00:00:00.0353947,70502,2
KeezenStep.CardsDealt (well-formedness),Passed,00:00:00.0353529,77211,2
BoardState.FullPenHasNoFreeField (well-formedness),Passed,00:00:00.0352610,57121,2
MejnActions.EncodeInjective (correctness),Passed,00:00:00.0349096,50231,2
KeezenPaths.RingHopOn (correctness),Passed,00:00:00.0348360,215002,2
CarryFinding.SceneKinds (well-formedness),Passed,00:00:00.0346864,41450,2
KeezenGame.AddsEarliest (well-formedness),Passed,00:00:00.0345902,34831,2
Seats.NextThenPrev (correctness),Passed,00:00:00.0344800,223679,2
KeezenDeal.DealStepShares (correctness),Passed,00:00:00.0342560,223082,2
KeezenPaths.HomeNext (correctness),Passed,00:00:00.0340804,90340,2
BoardState.InitialBoardFacts (well-formedness),Passed,00:00:00.0338877,67124,2
KeezenDeal.DealFromSeat (well-formedness),Passed,00:00:00.0336522,56396,2
MejnPaths.RouteHopTrack (well-formedness),Passed,00:00:00.0334725,34678,2
Moves.ApplyMarbleMoves (well-formedness),Passed,00:00:00.0334097,67392,2
KeezenActions.PathCell (well-formedness),Passed,00:00:00.0333716,33411,2
CardOps.SplitShape (well-formedness),Passed,00:00:00.0330770,58702,2
CardOps.StartOpen (well-formedness),Passed,00:00:00.0327809,36347,2
Rules.ValuePosOrder (correctness),Passed,00:00:00.0327513,116930,2
CardOps.PutKeepsPens (well-formedness),Passed,00:00:00.0327017,63612,2
KeezenBoard.RunBound (correctness),Passed,00:00:00.0323695,66303,2
KeezenActions.OnPath (correctness),Passed,00:00:00.0323625,41276,2
Cards.ResetCount (correctness),Passed,00:00:00.0320090,51544,2
KeezenGame.FlattenNil (correctness),Passed,00:00:00.0318928,52128,2
BoardState.FinishedIffAllHome (well-formedness),Passed,00:00:00.0318908,56791,2
Cards.RankRoundTrip (correctness),Passed,00:00:00.0318261,62625,2
BoardState.OnKindOnWellFormed (correctness),Passed,00:00:00.0317394,57382,2
KeezenActions.AheadZero (correctness),Passed,00:00:00.0316871,35278,2
Layout.FieldListsIncreasing (well-formedness),Passed,00:00:00.0316711,53489,2
Seats.NextSeat (well-formedness),Passed,00:00:00.0316580,152131,2
MejnPaths.RouteHopHome (well-formedness),Passed,00:00:00.0313631,34970,2
BoardState.WellFormed (well-formedness),Passed,00:00:00.0313447,50699,2
Rules.SimpleDiffersOnlyInSeven (correctness),Passed,00:00:00.0312833,61190,2
KeezenActions.EncodeParts (well-formedness),Passed,00:00:00.0311956,46568,2
KeezenPaths.FourHops (correctness),Passed,00:00:00.0310357,56471,2
KeezenActions.Slot (well-formedness),Passed,00:00:00.0309871,60983,2
Cards.PlayConserves (well-formedness),Passed,00:00:00.0308724,53239,2
KeezenActions.HomeNext (correctness),Passed,00:00:00.0306826,20097,2
KeezenGame.AddsDistinct (well-formedness),Passed,00:00:00.0305358,24650,2
MejnActions.StartRoundTrip (correctness),Passed,00:00:00.0304752,67138,2
MejnGame.StartOf (well-formedness),Passed,00:00:00.0301713,58482,2
BoardState.OnKindOnWellFormed (well-formedness),Passed,00:00:00.0296846,49758,2
KeezenActions.CellNextHome (correctness),Passed,00:00:00.0296170,43261,2
Seats.PrevSeat (well-formedness),Passed,00:00:00.0294751,147522,2
KeezenActions.Encode (well-formedness),Passed,00:00:00.0291074,43923,2
KeezenGame.KeepsCovers (well-formedness),Passed,00:00:00.0290114,25721,2
KeezenActions.CellNextJunction (well-formedness),Passed,00:00:00.0288727,27595,2
MejnPaths.RouteHop (well-formedness),Passed,00:00:00.0288262,36542,2
CarryFinding.FiveHops (well-formedness),Passed,00:00:00.0288210,24385,2
KeezenGame.Earliest (well-formedness),Passed,00:00:00.0286573,28373,2
KeezenActions.CellRoundTrip (well-formedness),Passed,00:00:00.0284319,20727,2
KeezenPaths.TrackBefore (well-formedness),Passed,00:00:00.0284264,85481,2
KeezenActions.PathIndexInverse (correctness),Passed,00:00:00.0284150,44398,2
MejnPaths.RouteAt (well-formedness),Passed,00:00:00.0280805,43255,2
Layout.AdjacencyShape (well-formedness),Passed,00:00:00.0280409,43097,2
CardOps.FirstHomeOf (well-formedness),Passed,00:00:00.0280400,54478,2
KeezenActions.AheadOrder (correctness),Passed,00:00:00.0278139,125075,2
Layout.StartFieldUnique (correctness),Passed,00:00:00.0277920,34477,2
KeezenPaths.RingHop (correctness),Passed,00:00:00.0277185,73242,2
KeezenDeal.ReceivedLater (correctness),Passed,00:00:00.0276725,60432,2
Moves.MostlyWellFormed (well-formedness),Passed,00:00:00.0272366,53514,2
Paths.WalkIsChain (well-formedness),Passed,00:00:00.0271582,29407,2
BoardState.MarblesOnKindHead (well-formedness),Passed,00:00:00.0271191,51284,2
MejnActions.TableEnd (correctness),Passed,00:00:00.0270813,85770,2
Cards.PermutationTail (correctness),Passed,00:00:00.0270575,57825,2
KeezenPaths.RingHopOver (correctness),Passed,00:00:00.0269010,182977,2
BoardState.FieldOf (well-formedness),Passed,00:00:00.0268891,62942,2
Layout.WaitFields (well-formedness),Passed,00:00:00.0268521,37038,2
Paths.ShiftChain (correctness),Passed,00:00:00.0265195,44742,2
BoardState.FieldOfOnInjective (correctness),Passed,00:00:00.0265105,47630,2
KeezenActions.CellNextTrack (correctness),Passed,00:00:00.0261879,51831,2
MejnActions.IdInTable (well-formedness),Passed,00:00:00.0259516,53896,2
KeezenActions.PathRoundTrip (well-formedness),Passed,00:00:00.0259034,33795,2
Layout.StartFields (well-formedness),Passed,00:00:00.0257285,32569,2
KeezenDeal.DealCardOthers (correctness),Passed,00:00:00.0254724,46351,2
CardOps.SamePens (well-formedness),Passed,00:00:00.0253733,39134,2
Rules.DeckFacts (well-formedness),Passed,00:00:00.0253206,64780,2
MejnGame.InitialPens (well-formedness),Passed,00:00:00.0250725,58987,2
MejnPaths.HomeRun (well-formedness),Passed,00:00:00.0249245,26200,2
Seats.StandardTeamsPartner (well-formedness),Passed,00:00:00.0246016,44929,2
MejnActions.IdInTable (correctness),Passed,00:00:00.0245173,53053,2
MejnActions.TableListsIds (well-formedness),Passed,00:00:00.0244523,46145,2
Rules.ValuePos (well-formedness),Passed,00:00:00.0243434,55045,2
MejnGame.NoMove (well-formedness),Passed,00:00:00.0240802,11140,2
Rules.DeckDistinct (correctness),Passed,00:00:00.0240403,56496,2
Paths.MejnAllowed (well-formedness),Passed,00:00:00.0240113,45199,2
Rules.DeckDistinct (well-formedness),Passed,00:00:00.0237092,56729,2
MejnPaths.SixFrom41 (well-formedness),Passed,00:00:00.0236042,25519,2
Common.DigitRoundTrip (correctness),Passed,00:00:00.0235780,37935,2
Paths.ChainIsWalk (well-formedness),Passed,00:00:00.0232459,29822,2
Paths.WalkConcat (well-formedness),Passed,00:00:00.0231953,25162,2
KeezenActions.LaterGap (correctness),Passed,00:00:00.0229114,14896,2
KeezenGame.AddsDistinct (correctness),Passed,00:00:00.0228042,34464,2
KeezenActions.Valid (well-formedness),Passed,00:00:00.0228024,30415,2
Seats.TeamMate (well-formedness),Passed,00:00:00.0223556,35000,2
MejnPaths.TwoFrom40 (well-formedness),Passed,00:00:00.0222924,23687,2
MejnActions.TableIndex (well-formedness),Passed,00:00:00.0222838,69481,2
KeezenActions.PathStep (well-formedness),Passed,00:00:00.0221622,34320,2
KeezenActions.PathRoundTrip (correctness),Passed,00:00:00.0219612,34315,2
Layout.HomeFields (well-formedness),Passed,00:00:00.0218101,35343,2
KeezenActions.CellNextHome (well-formedness),Passed,00:00:00.0217168,27724,2
Layout.Decompose (correctness),Passed,00:00:00.0216714,38050,2
Cards.ShuffleStep (correctness),Passed,00:00:00.0216687,36755,2
Cards.Rank (well-formedness),Passed,00:00:00.0216457,38289,2
KeezenGame.KeepsFromHand (correctness),Passed,00:00:00.0215152,15231,2
KeezenActions.CellNextTrack (well-formedness),Passed,00:00:00.0214451,27071,2
Paths.ShiftChain (well-formedness),Passed,00:00:00.0212318,29044,2
Paths.IsChain (well-formedness),Passed,00:00:00.0211743,24599,2
KeezenActions.TrackStep (well-formedness),Passed,00:00:00.0211454,34363,2
Common.ZFill2 (well-formedness),Passed,00:00:00.0209828,90012,2
MejnActions.TableCode (well-formedness),Passed,00:00:00.0208628,22949,2
Cards.Balance (correctness),Passed,00:00:00.0208021,19773,2
Paths.Walk (well-formedness),Passed,00:00:00.0206326,26465,2
KeezenActions.PathAt (well-formedness),Passed,00:00:00.0205904,25784,2
BoardState.WaitFieldOfColor (correctness),Passed,00:00:00.0205359,47842,2
Common.MinExists (correctness),Passed,00:00:00.0205352,36360,2
Cards.PlayShift (well-formedness),Passed,00:00:00.0203710,30590,2
KeezenDeal.ReceivedFirst (well-formedness),Passed,00:00:00.0202629,25946,2
MejnGame.Die (well-formedness),Passed,00:00:00.0202171,3679,2
Common.StepBack (well-formedness),Passed,00:00:00.0201371,24814,2
Rules.OpsByRank (well-formedness),Passed,00:00:00.0201040,38136,2
KeezenGame.ValuesDistinct (well-formedness),Passed,00:00:00.0200390,21559,2
KeezenActions.PathIndex (well-formedness),Passed,00:00:00.0199965,25792,2
Cards.FlattenEmpty (correctness),Passed,00:00:00.0199285,37281,2
KeezenGame.CoversValues (well-formedness),Passed,00:00:00.0196386,24097,2
Layout.StartField (well-formedness),Passed,00:00:00.0195502,26762,2
Common.FlatMap (well-formedness),Passed,00:00:00.0194848,36678,2
Layout.AdjacencySymmetric (correctness),Passed,00:00:00.0194639,28513,2
BoardState.OnKind (well-formedness),Passed,00:00:00.0194626,36354,2
Layout.FieldParts (correctness),Passed,00:00:00.0194498,30221,2
KeezenActions.Ahead (well-formedness),Passed,00:00:00.0194408,25341,2
MejnActions.TableBack (well-formedness),Passed,00:00:00.0194214,37427,2
CardOps.Leg (well-formedness),Passed,00:00:00.0191724,38207,2
KeezenActions.SameCell (correctness),Passed,00:00:00.0189592,18159,2
KeezenActions.CellIndexInverse (well-formedness),Passed,00:00:00.0187951,21664,2
BoardState.Cover4 (correctness),Passed,00:00:00.0185518,60203,2
Common.PaddedDigits (correctness),Passed,00:00:00.0185411,47491,2
BoardState.MarblesWithColor (well-formedness),Passed,00:00:00.0184948,30416,2
KeezenActions.LaterGap (well-formedness),Passed,00:00:00.0183769,6592,2
Common.NatStr (well-formedness),Passed,00:00:00.0182783,32982,2
Cards.EmptyHands (well-formedness),Passed,00:00:00.0182085,29935,2
MejnActions.TableMiddle (well-formedness),Passed,00:00:00.0181223,37427,2
KeezenActions.Later (well-formedness),Passed,00:00:00.0180882,16459,2
Paths.WalkStep (correctness),Passed,00:00:00.0180784,26878,2
CardOps.IsSwitchable (well-formedness),Passed,00:00:00.0180149,37772,2
BoardState.PutFacts (well-formedness),Passed,00:00:00.0178238,38992,2
Common.Row (well-formedness),Passed,00:00:00.0177710,31722,2
MejnActions.TableFront (well-formedness),Passed,00:00:00.0177221,36982,2
BoardState.WaitOccupant (well-formedness),Passed,00:00:00.0172913,46876,2
Paths.WalkStep (well-formedness),Passed,00:00:00.0172872,24149,2
KeezenDeal.Received (well-formedness),Passed,00:00:00.0172406,20144,2
KeezenGame.NoFallbackFits (correctness),Passed,00:00:00.0166850,17696,2
KeezenStep.NextRound (well-formedness),Passed,00:00:00.0164671,4297,2
CarryFinding.Scene (well-formedness),Passed,00:00:00.0163702,10776,2
Common.Pairs (well-formedness),Passed,00:00:00.0163531,32349,2
KeezenActions.Gap (well-formedness),Passed,00:00:00.0163032,14633,2
Paths.Backwards (well-formedness),Passed,00:00:00.0162407,17245,2
Seats.NextThenPrev (well-formedness),Passed,00:00:00.0161788,7203,2
CardOps.StopField (well-formedness),Passed,00:00:00.0160978,29420,2
KeezenActions.CellNextLast (well-formedness),Passed,00:00:00.0160166,29233,2
Cards.PermutationHead (correctness),Passed,00:00:00.0160083,12338,2
Cards.CountIsPoolSize (correctness),Passed,00:00:00.0159928,27801,2
Cards.CardCount (well-formedness),Passed,00:00:00.0159809,19311,2
KeezenActions.BeyondStep (well-formedness),Passed,00:00:00.0158241,15525,2
Layout.WaitBase (well-formedness),Passed,00:00:00.0157668,7131,2
BoardState.WaitOccupantOf (well-formedness),Passed,00:00:00.0157516,26001,2
CarryFinding.G3 (well-formedness),Passed,00:00:00.0156581,4640,2
KeezenActions.BeyondStep (correctness),Passed,00:00:00.0156485,25316,2
Rules.MakeRules (well-formedness),Passed,00:00:00.0156217,12841,2
Layout.Index (well-formedness),Passed,00:00:00.0154837,7671,2
Rules.SuitPos (well-formedness),Passed,00:00:00.0154708,22230,2
Rules.ValuePosOrder (well-formedness),Passed,00:00:00.0153672,23141,2
KeezenActions.Cell (well-formedness),Passed,00:00:00.0150957,21350,2
Cards.IndexOf (well-formedness),Passed,00:00:00.0149751,32910,2
MejnActions.TableEnd (well-formedness),Passed,00:00:00.0148868,37396,2
BoardState.WaitOccupantOf (correctness),Passed,00:00:00.0148799,37979,2
KeezenGame.FlattenNil (well-formedness),Passed,00:00:00.0148511,11989,2
Common.PaddedDigits (well-formedness),Passed,00:00:00.0143858,24676,2
Common.StepBackUndoesRecord (correctness),Passed,00:00:00.0142994,25878,2
BoardState.MarbleAt (well-formedness),Passed,00:00:00.0142342,20365,2
MejnActions.TableId (well-formedness),Passed,00:00:00.0141796,23177,2
KeezenDeal.ReceivedLater (well-formedness),Passed,00:00:00.0141735,18150,2
BoardState.WaitFieldOfColor (well-formedness),Passed,00:00:00.0141094,25289,2
KeezenActions.Beyond (well-formedness),Passed,00:00:00.0140846,9141,2
KeezenDeal.DealStepShares (well-formedness),Passed,00:00:00.0139151,18091,2
BoardState.Injective (well-formedness),Passed,00:00:00.0134617,17344,2
Seats.TeamMateOfTeamMate (correctness),Passed,00:00:00.0134114,22327,2
KeezenActions.CellIndex (well-formedness),Passed,00:00:00.0133760,18807,2
KeezenActions.PathLength (well-formedness),Passed,00:00:00.0130930,3753,2
Cards.FlattenUpdate (well-formedness),Passed,00:00:00.0130264,19798,2
Common.Last (well-formedness),Passed,00:00:00.0129094,5120,2
KeezenDeal.Dist (well-formedness),Passed,00:00:00.0128869,32677,2
Layout.LastTrack (well-formedness),Passed,00:00:00.0127847,7133,2
Seats.PartnerSeat (well-formedness),Passed,00:00:00.0125610,16344,2
KeezenActions.AheadOrder (well-formedness),Passed,00:00:00.0125132,10861,2
Rules.DeckIndex (well-formedness),Passed,00:00:00.0119956,34841,2
KeezenActions.AheadZero (well-formedness),Passed,00:00:00.0119549,11079,2
KeezenDeal.Shares (well-formedness),Passed,00:00:00.0117398,6657,2
Layout.NumFields (well-formedness),Passed,00:00:00.0116009,7476,2
Seats.StandardTeams (well-formedness),Passed,00:00:00.0115880,10081,2
Cards.ShuffleStep (well-formedness),Passed,00:00:00.0115728,19723,2
CardOps.ValidChoice (well-formedness),Passed,00:00:00.0114465,13008,2
BoardState.Cover4 (well-formedness),Passed,00:00:00.0114350,11605,2
KeezenStep.OwnColours (well-formedness),Passed,00:00:00.0112931,5215,2
Cards.PermutationTail (well-formedness),Passed,00:00:00.0111563,14027,2
KeezenPaths.FourHops (well-formedness),Passed,00:00:00.0111163,24024,2
Layout.Quarter (correctness),Passed,00:00:00.0110982,11645,2
KeezenStep.ColoursOk (well-formedness),Passed,00:00:00.0110960,14205,2
Layout.NumPlayers (well-formedness),Passed,00:00:00.0109991,3753,2
CarryFinding.SevenOfHearts (well-formedness),Passed,00:00:00.0108736,3716,2
Common.TwoDigits (well-formedness),Passed,00:00:00.0108171,28075,2
Common.DigitChar (correctness),Passed,00:00:00.0107983,32204,2
Common.Sum (well-formedness),Passed,00:00:00.0107952,12182,2
Layout.BlockSize (well-formedness),Passed,00:00:00.0107439,6243,2
KeezenActions.ValidTail (well-formedness),Passed,00:00:00.0107436,8859,2
Seats.FourSeatCycle (well-formedness),Passed,00:00:00.0105330,13551,2
Layout.MarblesPerColor (well-formedness),Passed,00:00:00.0105325,3753,2
KeezenDeal.EvenShares (correctness),Passed,00:00:00.0103425,10800,2
Rules.SuitPosOrder (correctness),Passed,00:00:00.0101067,20219,2
Cards.PermutationHead (well-formedness),Passed,00:00:00.0098524,9989,2
Common.Digit (well-formedness),Passed,00:00:00.0098464,12809,2
Cards.Flatten (well-formedness),Passed,00:00:00.0097880,12728,2
Layout.Color (well-formedness),Passed,00:00:00.0097610,3671,2
Common.DigitRoundTrip (well-formedness),Passed,00:00:00.0096189,12875,2
Common.Abs (well-formedness),Passed,00:00:00.0095456,6711,2
Rules.SuitPosOrder (well-formedness),Passed,00:00:00.0094482,13608,2
Common.Min (well-formedness),Passed,00:00:00.0094106,15206,2
CarryFinding.B0 (well-formedness),Passed,00:00:00.0094050,4638,2
Cards.MultisetCancel (correctness),Passed,00:00:00.0092242,10592,2
Layout.Block (well-formedness),Passed,00:00:00.0089424,6689,2
Layout.Quarter (well-formedness),Passed,00:00:00.0087723,5243,2
Common.DigitValue (well-formedness),Passed,00:00:00.0087089,9326,2
Cards.MultisetAdd (correctness),Passed,00:00:00.0084691,13476,2
Common.DigitChar (well-formedness),Passed,00:00:00.0082300,13319,2
KeezenStep.NextRound (correctness),Passed,00:00:00.0080903,18350,2
Seats.FourSeatCycle (correctness),Passed,00:00:00.0080881,9240,2
Cards.SmallMod (correctness),Passed,00:00:00.0074477,10995,2
KeezenPaths.RingStep (correctness),Passed,00:00:00.0073906,11490,2
Paths.At (well-formedness),Passed,00:00:00.0073260,6509,2
KeezenDeal.EvenShares (well-formedness),Passed,00:00:00.0072958,5978,2
Cards.SmallMod (well-formedness),Passed,00:00:00.0072540,3987,2
Rules.CardsPerRound (well-formedness),Passed,00:00:00.0070739,4426,2
Rules.PlayerStart (well-formedness),Passed,00:00:00.0069832,3753,2
