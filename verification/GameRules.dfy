/** The rules every part of the program shares. */
module GameRules {

  datatype Team = Red | Blue

  datatype Card = Agent(team: Team) | Neutral | Assassin

  datatype Mode = Classic | Duet | Match

  const BOARD_SIZE: nat := 25
  const FIRST_TEAM_CARDS: nat := 9
  const SECOND_TEAM_CARDS: nat := 8
  const NEUTRAL_CARDS: nat := 7
  const ASSASSIN_CARDS: nat := 1

  function Other(team: Team): Team {
    if team == Red then Blue else Red
  }

  predicate IsAgent(card: Card) {
    card.Agent?
  }
}
