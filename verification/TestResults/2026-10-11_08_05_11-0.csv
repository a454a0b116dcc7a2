TestResult.DisplayName,TestResult.Outcome,TestResult.Duration,TestResult.ResourceCount,RandomSeed
Actions.ChosenPartner (correctness),Passed,00:00:00.2760143,456588,3
Actions.ChosenPartner (well-formedness),Passed,00:00:00.1613447,168757,3
