TestResult.DisplayName,TestResult.Outcome,TestResult.Duration,TestResult.ResourceCount,RandomSeed
Actions.ChosenPartner (correctness),Passed,00:00:00.1846920,306107,2
Actions.ChosenPartner (well-formedness),Passed,00:00:00.1574940,168611,2
