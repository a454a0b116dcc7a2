TestResult.DisplayName,TestResult.Outcome,TestResult.Duration,TestResult.ResourceCount,RandomSeed
Actions.ChosenPartner (correctness),Passed,00:00:00.3706007,795498,4
Actions.ChosenPartner (well-formedness),Passed,00:00:00.1662738,172587,4
