TestResult.DisplayName,TestResult.Outcome,TestResult.Duration,TestResult.ResourceCount,RandomSeed
Actions.ChosenPartner (correctness),Passed,00:00:00.3025377,473813,5
Actions.ChosenPartner (well-formedness),Passed,00:00:00.1584448,171523,5
