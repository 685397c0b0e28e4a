/** The application shell: which screen is shown, the lesson the games share,
    and the password-protected download dialog. */
module AppShell {
  import opened Types

  /** The games the student hub offers, in its order; each button hands its
      mode to `setMode`. */
  const HubModes: seq<GameMode> := [
    GameMode.Flashcards, GameMode.Quiz, GameMode.MemoryMatch, GameMode.BubblePop,
    GameMode.ShadowMatch, GameMode.FeedMonster, GameMode.StickerWorld]

  const DownloadPassword: string := "9090"

  /** `isGameMode`: a game owns the viewport; the dashboard and the menu scroll. */
  predicate IsGameMode(m: GameMode)
  {
    m != Dashboard && m != Menu
  }

  /** The hub offers every game and nothing else, each exactly once. */
  lemma HubOffersTheGames(m: GameMode)
    ensures m in HubModes <==> IsGameMode(m)
    ensures |HubModes| == 7
    ensures forall i, j :: 0 <= i < j < |HubModes| ==> HubModes[i] != HubModes[j]
  {
  }

  class Shell {
    var mode: GameMode
    var lessonItems: seq<VocabularyItem>
    var isDownloadModalOpen: bool
    var passwordInput: string
    var passwordError: bool

    /** On the teacher's dashboard no lesson is loaded. */
    ghost predicate Valid()
      reads this
    {
      mode == Dashboard ==> lessonItems == []
    }

    constructor ()
      ensures Valid()
      ensures mode == Dashboard && lessonItems == []
      ensures !isDownloadModalOpen && passwordInput == "" && !passwordError
    {
      mode, lessonItems := Dashboard, [];
      isDownloadModalOpen, passwordInput, passwordError := false, "", false;
    }

    /** `handleLessonCreated`: the new lesson is stored and the hub opens. */
    method LessonCreated(items: seq<VocabularyItem>)
      requires Valid()
      modifies this
      ensures Valid()
      ensures mode == Menu && lessonItems == items
      ensures isDownloadModalOpen == old(isDownloadModalOpen) && passwordInput == old(passwordInput) && passwordError == old(passwordError)
    {
      lessonItems := items;
      mode := Menu;
    }

    /** A hub button: the chosen game starts on the current lesson. */
    method SelectGame(m: GameMode)
      requires Valid() && mode == Menu && m in HubModes
      modifies this
      ensures Valid()
      ensures mode == m && IsGameMode(mode) && lessonItems == old(lessonItems)
      ensures isDownloadModalOpen == old(isDownloadModalOpen) && passwordInput == old(passwordInput) && passwordError == old(passwordError)
    {
      HubOffersTheGames(m);
      mode := m;
    }

    /** `handleExitGame`: back to the hub with the lesson kept. */
    method ExitGame()
      requires Valid()
      modifies this
      ensures Valid()
      ensures mode == Menu && lessonItems == old(lessonItems)
      ensures isDownloadModalOpen == old(isDownloadModalOpen) && passwordInput == old(passwordInput) && passwordError == old(passwordError)
    {
      mode := Menu;
    }

    /** `handleBackToTeacher`: the dashboard, with the lesson discarded. */
    method BackToTeacher()
      requires Valid()
      modifies this
      ensures Valid()
      ensures mode == Dashboard && lessonItems == []
      ensures isDownloadModalOpen == old(isDownloadModalOpen) && passwordInput == old(passwordInput) && passwordError == old(passwordError)
    {
      mode := Dashboard;
      lessonItems := [];
    }

    /** `handleDownloadClick`: a fresh, empty password dialog. */
    method DownloadClick()
      requires Valid()
      modifies this
      ensures Valid()
      ensures isDownloadModalOpen && passwordInput == "" && !passwordError
      ensures mode == old(mode) && lessonItems == old(lessonItems)
    {
      isDownloadModalOpen := true;
      passwordInput := "";
      passwordError := false;
    }

    /** The password field's `onChange`. */
    method TypePassword(text: string)
      requires Valid()
      modifies this
      ensures Valid()
      ensures passwordInput == text
      ensures isDownloadModalOpen == old(isDownloadModalOpen) && passwordError == old(passwordError)
      ensures mode == old(mode) && lessonItems == old(lessonItems)
    {
      passwordInput := text;
    }

    /** `handlePasswordSubmit`: the right password closes the dialog and
        starts the download (`downloaded`); a wrong one keeps the dialog,
        shows the error and empties the field. */
    method SubmitPassword() returns (downloaded: bool)
      requires Valid()
      modifies this
      ensures Valid()
      ensures downloaded <==> old(passwordInput) == DownloadPassword
      ensures downloaded ==> !isDownloadModalOpen && passwordInput == old(passwordInput) && passwordError == old(passwordError)
      ensures !downloaded ==> isDownloadModalOpen == old(isDownloadModalOpen) && passwordError && passwordInput == ""
      ensures mode == old(mode) && lessonItems == old(lessonItems)
    {
      if passwordInput == DownloadPassword {
        isDownloadModalOpen := false;
        downloaded := true;
      } else {
        passwordError := true;
        passwordInput := "";
        downloaded := false;
      }
    }

    /** The dialog's close button. */
    method CloseModal()
      requires Valid()
      modifies this
      ensures Valid()
      ensures !isDownloadModalOpen
      ensures passwordInput == old(passwordInput) && passwordError == old(passwordError)
      ensures mode == old(mode) && lessonItems == old(lessonItems)
    {
      isDownloadModalOpen := false;
    }

    predicate InGame()
      reads this
    {
      IsGameMode(mode)
    }
  }
}
