/**
 * The game-side data the chat layer consumes: event types, the per-tick event and
 * agent-action records, and the numeric codes those records are compared against.
 */
module Game {

  /** `engine.helper.EventType`, with the numeric values listed in the event-type legend comment of `MarioChatWorker`. */
  datatype EventType =
    | Bump | StompKill | FireKill | ShellKill | FallKill | Jump
    | Land | Collect | Hurt | Kick | Lose | Win
  {
    /** `getValue()`: BUMP is 1, STOMP_KILL 2, ..., WIN 12. */
    function Value(): (v: int)
      ensures 1 <= v <= 12
    {
      match this
      case Bump => 1
      case StompKill => 2
      case FireKill => 3
      case ShellKill => 4
      case FallKill => 5
      case Jump => 6
      case Land => 7
      case Collect => 8
      case Hurt => 9
      case Kick => 10
      case Lose => 11
      case Win => 12
    }
  }

  /** `MarioEvent`: its integer type code, its parameter and Mario's power-up state. */
  datatype MarioEvent = MarioEvent(eventType: int, param: int, marioState: int)

  /** `MarioAgentEvent`: the agent's action flags for one tick. */
  datatype AgentEvent = AgentEvent(actions: seq<bool>)

  /** `MarioForwardModel.OBS_BRICK`, written as the literal 22 in engine/core. */
  const ObsBrick: int := 22

  /**
   * The constants whose values live in files outside this model: the enemy
   * observation codes of `MarioForwardModel`, the `SpriteType` values of the two
   * power-ups and the index of `MarioActions.JUMP`.
   */
  datatype Codes = Codes(
    goomba: int, goombaWinged: int,
    redKoopa: int, redKoopaWinged: int,
    greenKoopa: int, greenKoopaWinged: int,
    fireFlower: int, mushroom: int,
    jumpAction: nat)
  {
    /**
     * The six enemy codes are distinct (Java accepts them as labels of one
     * `switch`), and so are the two power-up sprite values.
     */
    predicate Valid() {
      && |{goomba, goombaWinged, redKoopa, redKoopaWinged, greenKoopa, greenKoopaWinged}| == 6
      && fireFlower != mushroom
    }

    predicate IsGoomba(param: int) {
      param == goomba || param == goombaWinged
    }

    predicate IsKoopa(param: int) {
      param == redKoopa || param == redKoopaWinged || param == greenKoopa || param == greenKoopaWinged
    }
  }

  /** The agent pressed jump during the tick; the flag array must reach the jump index. */
  predicate Jumped(c: Codes, e: AgentEvent)
    requires c.jumpAction < |e.actions|
  {
    e.actions[c.jumpAction]
  }
}
