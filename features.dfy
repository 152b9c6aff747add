/** The capability table Moodle queries through `hvp_supports()`. */
module Features {
  import opened Wrappers

  /** The ten FEATURE_* constants the module answers for; `Other` stands
      for every value equal to none of them. */
  datatype Feature =
    | Groups
    | Groupings
    | GroupMembersOnly
    | ModIntro
    | CompletionTracksViews
    | CompletionHasRules
    | GradeHasGrade
    | GradeOutcomes
    | BackupMoodle2
    | ShowDescription
    | Other

  /** The features the module declares an answer for. */
  const Declared: set<Feature> := {
    Groups, Groupings, GroupMembersOnly, ModIntro, CompletionTracksViews,
    CompletionHasRules, GradeHasGrade, GradeOutcomes, BackupMoodle2, ShowDescription
  }

  /** The features the module declares supported. */
  const Enabled: set<Feature> := {Groups, Groupings, GroupMembersOnly}

  /** `hvp_supports($feature)`: true for the group features, false for the
      other declared ones, null (None) for anything else. */
  function Supports(feature: Feature): (answer: Option<bool>)
    ensures answer == Some(true) <==> feature in Enabled
    ensures answer == Some(false) <==> feature in Declared - Enabled
    ensures answer == None <==> feature !in Declared
  {
    match feature
    case Groups => Some(true)
    case Groupings => Some(true)
    case GroupMembersOnly => Some(true)
    case ModIntro => Some(false)
    case CompletionTracksViews => Some(false)
    case CompletionHasRules => Some(false)
    case GradeHasGrade => Some(false)
    case GradeOutcomes => Some(false)
    case BackupMoodle2 => Some(false)
    case ShowDescription => Some(false)
    case Other => None
  }
}
