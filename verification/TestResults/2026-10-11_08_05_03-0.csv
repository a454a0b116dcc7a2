TestResult.DisplayName,TestResult.Outcome,TestResult.Duration,TestResult.ResourceCount,RandomSeed
Actions.ChosenPartner (correctness),Passed,00:00:00.2923321,378240,1
Actions.ChosenPartner (well-formedness),Passed,00:00:00.1709059,176775,1
