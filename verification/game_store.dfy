/** The session engine: the store that holds the current user, the user list,
    the current session and the `isPlaying` flag, with the actions that
    update them. Random ids and clock readings are parameters. */
module GameStore {
  import opened Common
  import Utils

  datatype Theme = Light | Dark | System
  datatype FontSize = Small | Medium | Large

  datatype Preferences = Preferences(
    theme: Theme,
    language: string,
    fontSize: FontSize,
    highContrast: bool,
    reducedMotion: bool,
    soundEnabled: bool,
    notifications: bool)

  datatype Stats = Stats(
    totalPuzzlesSolved: int,
    currentStreak: int,
    longestStreak: int,
    averageScore: int,
    totalPlayTime: int,
    skillLevels: map<Subject, int>,
    difficultyPreference: int)

  datatype AchievementCategory = PuzzleAchievement | Streak | Skill | Social | Time

  datatype Achievement = Achievement(
    id: string, title: string, description: string, icon: string,
    unlockedAt: int, category: AchievementCategory)

  datatype User = User(
    id: string,
    name: string,
    age: int,
    ageGroup: Utils.AgeGroup,
    avatar: string,
    preferences: Preferences,
    stats: Stats,
    achievements: seq<Achievement>)

  datatype Session = Session(
    id: string,
    userId: string,
    puzzles: seq<Puzzle>,
    currentPuzzleIndex: int,
    startTime: int,
    score: int,
    correctAnswers: int,
    hintsUsed: int,
    timeSpent: int,
    completed: bool)

  /** `Partial<UserPreferences>`: `None` is a key the caller left out. */
  datatype PreferencesPatch = PreferencesPatch(
    theme: Option<Theme>,
    language: Option<string>,
    fontSize: Option<FontSize>,
    highContrast: Option<bool>,
    reducedMotion: Option<bool>,
    soundEnabled: Option<bool>,
    notifications: Option<bool>)

  /** `Partial<UserStats>`. */
  datatype StatsPatch = StatsPatch(
    totalPuzzlesSolved: Option<int>,
    currentStreak: Option<int>,
    longestStreak: Option<int>,
    averageScore: Option<int>,
    totalPlayTime: Option<int>,
    skillLevels: Option<map<Subject, int>>,
    difficultyPreference: Option<int>)

  const DefaultPreferences := Preferences(System, "en", Medium, false, false, true, true)

  const DefaultStats := Stats(0, 0, 0, 0, 0,
    map[Mathematics := 1, Science := 1, Language := 1, History := 1,
        Geography := 1, Logic := 1, Memory := 1, Creativity := 1],
    3)

  const HintPenalty := 10

  function Pick<T>(o: Option<T>, old_: T): T
  {
    if o.Some? then o.value else old_
  }

  /** `{ ...prefs, ...patch }`. */
  function MergePreferences(p: Preferences, patch: PreferencesPatch): (r: Preferences)
    ensures r.theme == (if patch.theme.Some? then patch.theme.value else p.theme)
    ensures r.language == (if patch.language.Some? then patch.language.value else p.language)
    ensures r.fontSize == (if patch.fontSize.Some? then patch.fontSize.value else p.fontSize)
    ensures r.highContrast == (if patch.highContrast.Some? then patch.highContrast.value else p.highContrast)
    ensures r.reducedMotion == (if patch.reducedMotion.Some? then patch.reducedMotion.value else p.reducedMotion)
    ensures r.soundEnabled == (if patch.soundEnabled.Some? then patch.soundEnabled.value else p.soundEnabled)
    ensures r.notifications == (if patch.notifications.Some? then patch.notifications.value else p.notifications)
  {
    Preferences(
      Pick(patch.theme, p.theme), Pick(patch.language, p.language),
      Pick(patch.fontSize, p.fontSize), Pick(patch.highContrast, p.highContrast),
      Pick(patch.reducedMotion, p.reducedMotion), Pick(patch.soundEnabled, p.soundEnabled),
      Pick(patch.notifications, p.notifications))
  }

  /** `{ ...stats, ...patch }`. */
  function MergeStats(s: Stats, patch: StatsPatch): (r: Stats)
    ensures r.totalPuzzlesSolved == (if patch.totalPuzzlesSolved.Some? then patch.totalPuzzlesSolved.value else s.totalPuzzlesSolved)
    ensures r.currentStreak == (if patch.currentStreak.Some? then patch.currentStreak.value else s.currentStreak)
    ensures r.longestStreak == (if patch.longestStreak.Some? then patch.longestStreak.value else s.longestStreak)
    ensures r.averageScore == (if patch.averageScore.Some? then patch.averageScore.value else s.averageScore)
    ensures r.totalPlayTime == (if patch.totalPlayTime.Some? then patch.totalPlayTime.value else s.totalPlayTime)
    ensures r.skillLevels == (if patch.skillLevels.Some? then patch.skillLevels.value else s.skillLevels)
    ensures r.difficultyPreference == (if patch.difficultyPreference.Some? then patch.difficultyPreference.value else s.difficultyPreference)
  {
    Stats(
      Pick(patch.totalPuzzlesSolved, s.totalPuzzlesSolved),
      Pick(patch.currentStreak, s.currentStreak),
      Pick(patch.longestStreak, s.longestStreak),
      Pick(patch.averageScore, s.averageScore),
      Pick(patch.totalPlayTime, s.totalPlayTime),
      Pick(patch.skillLevels, s.skillLevels),
      Pick(patch.difficultyPreference, s.difficultyPreference))
  }

  /** A spread update keeps every key the patch leaves out and takes every
      key it gives; the empty patch changes nothing, and applying the same
      patch twice changes nothing more. */
  lemma MergeStatsKeepsOthers(s: Stats, patch: StatsPatch)
    ensures patch.totalPuzzlesSolved.None? ==> MergeStats(s, patch).totalPuzzlesSolved == s.totalPuzzlesSolved
    ensures patch.totalPuzzlesSolved.Some? ==> MergeStats(s, patch).totalPuzzlesSolved == patch.totalPuzzlesSolved.value
    ensures patch.currentStreak.None? ==> MergeStats(s, patch).currentStreak == s.currentStreak
    ensures patch.currentStreak.Some? ==> MergeStats(s, patch).currentStreak == patch.currentStreak.value
    ensures patch.longestStreak.None? ==> MergeStats(s, patch).longestStreak == s.longestStreak
    ensures patch.longestStreak.Some? ==> MergeStats(s, patch).longestStreak == patch.longestStreak.value
    ensures patch.averageScore.None? ==> MergeStats(s, patch).averageScore == s.averageScore
    ensures patch.averageScore.Some? ==> MergeStats(s, patch).averageScore == patch.averageScore.value
    ensures patch.totalPlayTime.None? ==> MergeStats(s, patch).totalPlayTime == s.totalPlayTime
    ensures patch.totalPlayTime.Some? ==> MergeStats(s, patch).totalPlayTime == patch.totalPlayTime.value
    ensures patch.skillLevels.None? ==> MergeStats(s, patch).skillLevels == s.skillLevels
    ensures patch.skillLevels.Some? ==> MergeStats(s, patch).skillLevels == patch.skillLevels.value
    ensures patch.difficultyPreference.None? ==> MergeStats(s, patch).difficultyPreference == s.difficultyPreference
    ensures patch.difficultyPreference.Some? ==> MergeStats(s, patch).difficultyPreference == patch.difficultyPreference.value
    ensures patch == StatsPatch(None, None, None, None, None, None, None) ==> MergeStats(s, patch) == s
    ensures MergeStats(MergeStats(s, patch), patch) == MergeStats(s, patch)
  {
  }

  /** The same laws for the preferences update. */
  lemma MergePreferencesKeepsOthers(p: Preferences, patch: PreferencesPatch)
    ensures patch.theme.None? ==> MergePreferences(p, patch).theme == p.theme
    ensures patch.theme.Some? ==> MergePreferences(p, patch).theme == patch.theme.value
    ensures patch.language.None? ==> MergePreferences(p, patch).language == p.language
    ensures patch.language.Some? ==> MergePreferences(p, patch).language == patch.language.value
    ensures patch.fontSize.None? ==> MergePreferences(p, patch).fontSize == p.fontSize
    ensures patch.fontSize.Some? ==> MergePreferences(p, patch).fontSize == patch.fontSize.value
    ensures patch.highContrast.None? ==> MergePreferences(p, patch).highContrast == p.highContrast
    ensures patch.highContrast.Some? ==> MergePreferences(p, patch).highContrast == patch.highContrast.value
    ensures patch.reducedMotion.None? ==> MergePreferences(p, patch).reducedMotion == p.reducedMotion
    ensures patch.reducedMotion.Some? ==> MergePreferences(p, patch).reducedMotion == patch.reducedMotion.value
    ensures patch.soundEnabled.None? ==> MergePreferences(p, patch).soundEnabled == p.soundEnabled
    ensures patch.soundEnabled.Some? ==> MergePreferences(p, patch).soundEnabled == patch.soundEnabled.value
    ensures patch.notifications.None? ==> MergePreferences(p, patch).notifications == p.notifications
    ensures patch.notifications.Some? ==> MergePreferences(p, patch).notifications == patch.notifications.value
    ensures patch == PreferencesPatch(None, None, None, None, None, None, None) ==> MergePreferences(p, patch) == p
    ensures MergePreferences(MergePreferences(p, patch), patch) == MergePreferences(p, patch)
  {
    var r := MergePreferences(p, patch);
    var rr := MergePreferences(r, patch);
    assert rr.theme == r.theme && rr.language == r.language && rr.fontSize == r.fontSize;
    assert rr.highContrast == r.highContrast && rr.reducedMotion == r.reducedMotion;
    assert rr.soundEnabled == r.soundEnabled && rr.notifications == r.notifications;
  }

  /** `Math.round((a + b) / 2)` on integers: halves round up. */
  function RoundedMean(a: int, b: int): (r: int)
    ensures a + b <= 2 * r <= a + b + 1
  {
    (a + b + 1) / 2
  }

  /** `Math.max(0, score - 10)`. */
  function Penalized(score: int): (r: int)
    ensures r >= 0
    ensures score >= HintPenalty ==> r == score - HintPenalty
    ensures score < HintPenalty ==> r == 0
  {
    Max(0, score - HintPenalty)
  }

  /** The user after `endSession` folds the session's tallies into the
      statistics: puzzles solved and play time grow by the session's counts,
      the average becomes the rounded mean with the session score, and
      nothing else about the user changes. */
  function WithSessionTallies(u: User, s: Session): (r: User)
    ensures r == u.(stats := r.stats)
    ensures r.stats == u.stats.(
      totalPuzzlesSolved := r.stats.totalPuzzlesSolved,
      totalPlayTime := r.stats.totalPlayTime,
      averageScore := r.stats.averageScore)
    ensures r.stats.totalPuzzlesSolved - u.stats.totalPuzzlesSolved == s.correctAnswers
    ensures r.stats.totalPlayTime - u.stats.totalPlayTime == s.timeSpent
    ensures u.stats.averageScore + s.score <= 2 * r.stats.averageScore <= u.stats.averageScore + s.score + 1
  {
    u.(stats := MergeStats(u.stats, StatsPatch(
      Some(u.stats.totalPuzzlesSolved + s.correctAnswers),
      None, None,
      Some(RoundedMean(u.stats.averageScore, s.score)),
      Some(u.stats.totalPlayTime + s.timeSpent),
      None, None)))
  }

  /** The session record invariant that every store action keeps. */
  predicate SessionOk(s: Session)
  {
    && 0 <= s.currentPuzzleIndex
    && (s.puzzles != [] ==> s.currentPuzzleIndex < |s.puzzles|)
    && (s.puzzles == [] ==> s.currentPuzzleIndex == 0)
    && s.score >= 0
    && s.correctAnswers >= 0
    && s.hintsUsed >= 0
    && !s.completed
  }

  class Store {
    var currentUser: Option<User>
    var users: seq<User>
    var currentSession: Option<Session>
    var isPlaying: bool

    ghost predicate Valid()
      reads this
    {
      && (currentSession.Some? ==> currentUser.Some? && SessionOk(currentSession.value))
      && isPlaying == currentSession.Some?
    }

    /** The store as created: nobody signed in, no session. */
    constructor ()
      ensures Valid()
      ensures currentUser == None && users == [] && currentSession == None && !isPlaying
    {
      currentUser := None;
      users := [];
      currentSession := None;
      isPlaying := false;
    }

    /** `setCurrentUser(user)`: the user need not be in `users`. */
    method SetCurrentUser(user: User)
      requires Valid()
      modifies this
      ensures Valid()
      ensures currentUser == Some(user)
      ensures users == old(users) && currentSession == old(currentSession) && isPlaying == old(isPlaying)
    {
      currentUser := Some(user);
    }

    /** `createUser(name, age)`; `id` is what `generateId` returned. */
    method CreateUser(name: string, age: int, id: string)
      requires Valid()
      modifies this
      ensures Valid()
      ensures currentUser.Some? && users == old(users) + [currentUser.value]
      ensures currentUser.value == User(id, name, age, Utils.GetAgeGroup(age),
        "https://api.dicebear.com/7.x/avataaars/svg?seed=" + name, DefaultPreferences, DefaultStats, [])
      ensures currentSession == old(currentSession) && isPlaying == old(isPlaying)
    {
      var user := User(id, name, age, Utils.GetAgeGroup(age),
        "https://api.dicebear.com/7.x/avataaars/svg?seed=" + name, DefaultPreferences, DefaultStats, []);
      users := users + [user];
      currentUser := Some(user);
    }

    /** Replace the current user by `updated` in both places the store keeps it. */
    method ReplaceCurrentUser(updated: User)
      requires Valid() && currentUser.Some? && updated.id == currentUser.value.id
      modifies this
      ensures Valid()
      ensures currentUser == Some(updated)
      ensures users == ReplaceWhere(old(users), (u: User) => u.id == updated.id, updated)
      ensures old(currentUser).value in old(users) ==> updated in users
      ensures currentSession == old(currentSession) && isPlaying == old(isPlaying)
    {
      var previous := currentUser.value;
      users := ReplaceWhere(users, (u: User) => u.id == updated.id, updated);
      currentUser := Some(updated);
      if previous in old(users) {
        var k :| 0 <= k < |old(users)| && old(users)[k] == previous;
        assert users[k] == updated;
      }
    }

    /** `updateUserPreferences(patch)`: a no-op without a current user. */
    method UpdateUserPreferences(patch: PreferencesPatch)
      requires Valid()
      modifies this
      ensures Valid()
      ensures old(currentUser).None? ==> currentUser == old(currentUser) && users == old(users)
      ensures old(currentUser).Some? ==>
        var u := old(currentUser).value;
        var updated := u.(preferences := MergePreferences(u.preferences, patch));
        currentUser == Some(updated)
        && users == ReplaceWhere(old(users), (v: User) => v.id == u.id, updated)
      ensures currentSession == old(currentSession) && isPlaying == old(isPlaying)
    {
      if currentUser.None? { return; }
      var u := currentUser.value;
      ReplaceCurrentUser(u.(preferences := MergePreferences(u.preferences, patch)));
    }

    /** `updateUserStats(patch)`: a no-op without a current user. */
    method UpdateUserStats(patch: StatsPatch)
      requires Valid()
      modifies this
      ensures Valid()
      ensures old(currentUser).None? ==> currentUser == old(currentUser) && users == old(users)
      ensures old(currentUser).Some? ==>
        var u := old(currentUser).value;
        var updated := u.(stats := MergeStats(u.stats, patch));
        currentUser == Some(updated)
        && users == ReplaceWhere(old(users), (v: User) => v.id == u.id, updated)
      ensures currentSession == old(currentSession) && isPlaying == old(isPlaying)
    {
      if currentUser.None? { return; }
      var u := currentUser.value;
      ReplaceCurrentUser(u.(stats := MergeStats(u.stats, patch)));
    }

    /** `addAchievement(a)`: appends to the current user's list. */
    method AddAchievement(a: Achievement)
      requires Valid()
      modifies this
      ensures Valid()
      ensures old(currentUser).None? ==> currentUser == old(currentUser) && users == old(users)
      ensures old(currentUser).Some? ==>
        var u := old(currentUser).value;
        var updated := u.(achievements := u.achievements + [a]);
        currentUser == Some(updated)
        && users == ReplaceWhere(old(users), (v: User) => v.id == u.id, updated)
      ensures currentSession == old(currentSession) && isPlaying == old(isPlaying)
    {
      if currentUser.None? { return; }
      var u := currentUser.value;
      ReplaceCurrentUser(u.(achievements := u.achievements + [a]));
    }

    /** `startSession(puzzles)`; `id` and `now` stand for `generateId()` and `new Date()`. */
    method StartSession(puzzles: seq<Puzzle>, id: string, now: int)
      requires Valid()
      modifies this
      ensures Valid()
      ensures old(currentUser).None? ==>
        currentSession == old(currentSession) && isPlaying == old(isPlaying)
      ensures old(currentUser).Some? ==>
        currentSession == Some(Session(id, old(currentUser).value.id, puzzles, 0, now, 0, 0, 0, 0, false))
        && isPlaying
      ensures currentUser == old(currentUser) && users == old(users)
    {
      if currentUser.None? { return; }
      currentSession := Some(Session(id, currentUser.value.id, puzzles, 0, now, 0, 0, 0, 0, false));
      isPlaying := true;
    }

    /** `endSession()`: folds the session's tallies into the user's statistics
        and drops the session; a no-op without a session or a user. */
    method EndSession()
      requires Valid()
      modifies this
      ensures Valid()
      ensures old(currentSession).None? || old(currentUser).None? ==>
        currentSession == old(currentSession) && currentUser == old(currentUser)
        && users == old(users) && isPlaying == old(isPlaying)
      ensures old(currentSession).Some? && old(currentUser).Some? ==>
        var u := old(currentUser).value;
        var updated := WithSessionTallies(u, old(currentSession).value);
        currentUser == Some(updated)
        && users == ReplaceWhere(old(users), (v: User) => v.id == u.id, updated)
        && currentSession.None? && !isPlaying
    {
      if currentSession.None? || currentUser.None? { return; }
      var s := currentSession.value;
      var u := currentUser.value;
      ReplaceCurrentUser(WithSessionTallies(u, s));
      currentSession := None;
      isPlaying := false;
    }

    /** `nextPuzzle()`: advance the cursor, or end the session after the last puzzle. */
    method NextPuzzle()
      requires Valid()
      modifies this
      ensures Valid()
      ensures old(currentSession).None? ==>
        currentSession == old(currentSession) && currentUser == old(currentUser)
        && users == old(users) && isPlaying == old(isPlaying)
      ensures old(currentSession).Some? ==>
        var s := old(currentSession).value;
        var u := old(currentUser).value;
        if s.currentPuzzleIndex + 1 < |s.puzzles| then
          currentSession == Some(s.(currentPuzzleIndex := s.currentPuzzleIndex + 1))
          && currentUser == old(currentUser) && users == old(users) && isPlaying
        else
          currentUser == Some(WithSessionTallies(u, s))
          && users == ReplaceWhere(old(users), (v: User) => v.id == u.id, WithSessionTallies(u, s))
          && currentSession.None? && !isPlaying
    {
      if currentSession.None? { return; }
      var s := currentSession.value;
      var nextIndex := s.currentPuzzleIndex + 1;
      if nextIndex >= |s.puzzles| {
        EndSession();
        return;
      }
      currentSession := Some(s.(currentPuzzleIndex := nextIndex));
    }

    /** The session has a current puzzle; with an empty puzzle list the
        source reads a field of `undefined` and throws. */
    predicate HasCurrentPuzzle()
      reads this
    {
      currentSession.None? || currentSession.value.puzzles != []
    }

    /** `submitAnswer(answer, timeSpent)`: grades by strict equality. */
    method SubmitAnswer(answer: Answer, timeSpent: int) returns (correct: bool)
      requires Valid() && HasCurrentPuzzle()
      modifies this
      ensures Valid()
      ensures old(currentSession).None? ==> !correct && currentSession == old(currentSession)
      ensures old(currentSession).Some? ==>
        var s := old(currentSession).value;
        var p := s.puzzles[s.currentPuzzleIndex];
        && (correct <==> StrictEquals(answer, p.correctAnswer))
        && currentSession == Some(s.(
             score := s.score + (if correct then p.points else 0),
             correctAnswers := s.correctAnswers + (if correct then 1 else 0),
             timeSpent := s.timeSpent + timeSpent))
      ensures currentUser == old(currentUser) && users == old(users) && isPlaying == old(isPlaying)
    {
      if currentSession.None? { return false; }
      var s := currentSession.value;
      var p := s.puzzles[s.currentPuzzleIndex];
      correct := StrictEquals(answer, p.correctAnswer);
      currentSession := Some(s.(
        score := s.score + (if correct then p.points else 0),
        correctAnswers := s.correctAnswers + (if correct then 1 else 0),
        timeSpent := s.timeSpent + timeSpent));
    }

    /** `useHint()`: the next hint of the current puzzle, indexed by the
        session-wide `hintsUsed` counter, at a penalty of ten points. */
    method UseHint() returns (hint: Option<string>)
      requires Valid() && HasCurrentPuzzle()
      modifies this
      ensures Valid()
      ensures old(currentSession).None? ==> hint.None? && currentSession == old(currentSession)
      ensures old(currentSession).Some? ==>
        var s := old(currentSession).value;
        var p := s.puzzles[s.currentPuzzleIndex];
        if s.hintsUsed >= |p.hints| then
          hint.None? && currentSession == old(currentSession)
        else
          hint == Some(p.hints[s.hintsUsed])
          && currentSession == Some(s.(hintsUsed := s.hintsUsed + 1, score := Penalized(s.score)))
      ensures currentUser == old(currentUser) && users == old(users) && isPlaying == old(isPlaying)
    {
      if currentSession.None? { return None; }
      var s := currentSession.value;
      var p := s.puzzles[s.currentPuzzleIndex];
      var hintIndex := s.hintsUsed;
      if hintIndex >= |p.hints| { return None; }
      currentSession := Some(s.(hintsUsed := s.hintsUsed + 1, score := Penalized(s.score)));
      hint := Some(p.hints[hintIndex]);
    }
  }
}
