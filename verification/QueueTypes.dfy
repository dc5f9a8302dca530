/** The game types a search can ask for and how many players and teams each needs
    (src/common/anongame_protocol.h:448-468; src/bnetd/anongame.cpp:308-375, 1107-1121;
    src/bnetd/tournament.cpp:257-260, 576-579). */
module QueueTypes {
  const ANONGAME_TYPES := 18
  const MAX_GAMECOUNT := 12
  const ONE_ON_ONE := 0
  const SMALL_FFA := 4
  const TEAM_FFA := 6
  const TY := 9

  /** 1 by default; the configuration file is only obeyed when it says 1 to 4. */
  type GameType = g: int | 1 <= g <= 4 witness 1

  /** What the tournament configuration says; it governs the queue type TY only. */
  datatype Tournament = Tournament(gameType: GameType, arranged: bool)

  function TotalPlayers(queue: nat, t: Tournament): nat {
    match queue
    case 0 => 2                      // 1V1
    case 1 | 4 | 5 => 4              // 2V2, SMALL_FFA, AT_2V2
    case 2 | 7 | 12 | 17 => 6        // 3V3, AT_3V3, 2V2V2, AT_2V2V2
    case 3 | 6 | 8 | 15 => 8         // 4V4, TEAM_FFA, AT_4V4, 2V2V2V2
    case 9 => 2 * t.gameType         // TY
    case 10 => 10                    // 5V5
    case 13 => 9                     // 3V3V3
    case 11 | 14 | 16 => 12          // 6V6, 4V4V4, 3V3V3V3
    case _ => 0
  }

  function TotalTeams(queue: nat): nat {
    match queue
    case 0 | 4 => 0                          // 1V1, SMALL_FFA
    case 1 | 2 | 3 | 5 | 7 | 8 | 10 | 11 => 2
    case 12 | 13 | 14 | 17 => 3
    case 6 | 15 | 16 => 4
    case 9 => 2
    case _ => 0
  }

  predicate Arranged(queue: nat, t: Tournament) {
    match queue
    case 5 | 7 | 8 | 17 => true              // AT_2V2, AT_3V3, AT_4V4, AT_2V2V2
    case 9 => t.arranged
    case _ => false
  }

  /** What the matching code needs of the tables and the tournament configuration. */
  predicate WellSized(queue: nat, t: Tournament) {
    && 0 < TotalPlayers(queue, t) <= MAX_GAMECOUNT
    && (TotalTeams(queue) == 0 || 2 <= TotalTeams(queue) <= 4)
    && (TotalTeams(queue) > 0 ==> TotalPlayers(queue, t) % TotalTeams(queue) == 0)
    && (Arranged(queue, t) ==> TotalTeams(queue) > 0)
  }

  /** Every queue type fits the player array and divides evenly into its teams, whatever the tournament. */
  lemma QueuesWellSized(queue: nat, t: Tournament)
    requires queue < ANONGAME_TYPES
    ensures WellSized(queue, t)
  {
  }

  /** The names of the queues in the map list configuration (src/bnetd/anongame_maplists.cpp:62-67). */
  function QueueName(queue: nat): string
    requires queue < ANONGAME_TYPES
  {
    match queue
    case 0 => "1v1"
    case 1 => "2v2"
    case 2 => "3v3"
    case 3 => "4v4"
    case 4 => "sffa"
    case 5 => "at2v2"
    case 6 => "tffa"
    case 7 => "at3v3"
    case 8 => "at4v4"
    case 9 => "TY"
    case 10 => "5v5"
    case 11 => "6v6"
    case 12 => "2v2v2"
    case 13 => "3v3v3"
    case 14 => "4v4v4"
    case 15 => "2v2v2v2"
    case 16 => "3v3v3v3"
    case _ => "at2v2v2"
  }

  predicate StartsWithAt(name: string) {
    |name| >= 2 && name[0] == 'a' && name[1] == 't'
  }

  /** The name without a leading "at", which stands for an arranged team. */
  function FormatOf(name: string): string {
    if StartsWithAt(name) then name[2..] else name
  }

  /** One digit per side, the number of its players, with a 'v' between two sides. */
  predicate Sides(format: string, sides: nat, size: nat) {
    && size < 10 && sides > 0 && |format| == 2 * sides - 1
    && forall i :: 0 <= i < |format| ==> format[i] as int == if i % 2 == 0 then '0' as int + size else 'v' as int
  }

  /** The tables say what the names say: as many players as the sides have together, as many teams as there are sides
      (none when a side is one player), and an arranged team exactly when the name says so. */
  lemma TablesMatchNames(queue: nat, t: Tournament, sides: nat, size: nat)
    requires queue < ANONGAME_TYPES && queue !in {SMALL_FFA, TEAM_FFA, TY} && Sides(FormatOf(QueueName(queue)), sides, size)
    ensures TotalPlayers(queue, t) == sides * size && TotalTeams(queue) == if size == 1 then 0 else sides
    ensures Arranged(queue, t) <==> StartsWithAt(QueueName(queue))
  {
    var s, n := NamesHaveSides(queue);
    var format := FormatOf(QueueName(queue));
    assert format[0] as int == '0' as int + size == '0' as int + n && sides == s;
  }

  /** The other three: small free-for-all is four single players, team free-for-all four pairs, and the tournament two
      teams, each as large as the configured type. */
  lemma OtherTables(t: Tournament)
    ensures TotalPlayers(SMALL_FFA, t) == 4 && TotalTeams(SMALL_FFA) == 0 && !Arranged(SMALL_FFA, t)
    ensures TotalPlayers(TEAM_FFA, t) == 4 * 2 && TotalTeams(TEAM_FFA) == 4 && !Arranged(TEAM_FFA, t)
    ensures TotalPlayers(TY, t) == 2 * t.gameType && TotalTeams(TY) == 2 && (Arranged(TY, t) <==> t.arranged)
  {
  }

  /** Every queue but these three has such a name. */
  lemma NamesHaveSides(queue: nat) returns (sides: nat, size: nat)
    requires queue < ANONGAME_TYPES && queue !in {SMALL_FFA, TEAM_FFA, TY}
    ensures Sides(FormatOf(QueueName(queue)), sides, size) && 1 <= size <= 6 && 2 <= sides <= 4
  {
    var name := QueueName(queue);
    var format := FormatOf(name);
    sides, size := (|format| + 1) / 2, format[0] as int - '0' as int;
    assert |name| == 3 || |name| == 5 || |name| == 7;
    assert |format| == 3 || |format| == 5 || |format| == 7;
  }

  /** How many list entries complete a match: an arranged team is queued by one entry. */
  function Need(queue: nat, t: Tournament): nat {
    if Arranged(queue, t) then TotalTeams(queue) else TotalPlayers(queue, t)
  }
}
