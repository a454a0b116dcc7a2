TestResult.DisplayName,TestResult.Outcome,TestResult.Duration,TestResult.ResourceCount,RandomSeed
Actions.ChosenPartner (correctness),Passed,00:00:00.1891340,345936,0
Actions.ChosenPartner (well-formedness),Passed,00:00:00.1480813,162241,0
