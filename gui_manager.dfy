// The menu cooldown (manager/GuiManager.java): the moment each player last
// opened the main menu, and a one-second cooldown between openings. `now`
// and whether building and opening the menu throws are parameters.

module Menus {
  import opened JavaNum
  import opened Ids

  /** `menuCooldown`, in milliseconds. */
  const MENU_COOLDOWN: int := 1000

  /** What `openMainMenu` ends with: the cooldown message, an opened menu,
      or the error message after an exception. */
  datatype MenuOutcome = OnCooldown | Opened | Failed

  class GuiManager {
    var lastMenuOpen: map<Uuid, int>

    constructor ()
      ensures lastMenuOpen == map[]
    {
      lastMenuOpen := map[];
    }

    /** `canOpenMenu`: no recorded opening, or strictly more than the
        cooldown has elapsed since it. */
    predicate CanOpenMenu(playerId: Uuid, now: int)
      reads this
    {
      playerId !in lastMenuOpen || now - lastMenuOpen[playerId] > MENU_COOLDOWN
    }

    /** `getRemainingCooldown`: zero without a record, otherwise what is left
        of the cooldown, never negative. */
    function RemainingCooldown(playerId: Uuid, now: int): (r: int)
      reads this
      ensures r >= 0
      ensures playerId !in lastMenuOpen ==> r == 0
      ensures r > 0 ==> now + r == lastMenuOpen[playerId] + MENU_COOLDOWN
    {
      if playerId !in lastMenuOpen then 0
      else Max(0, MENU_COOLDOWN - (now - lastMenuOpen[playerId]))
    }

    /** `openMainMenu`: on cooldown nothing changes; otherwise the opening
        time is recorded only when the menu opened without an exception. */
    method OpenMainMenu(playerId: Uuid, now: int, opensWithoutError: bool) returns (outcome: MenuOutcome)
      modifies this`lastMenuOpen
      ensures outcome == OnCooldown <==> !old(CanOpenMenu(playerId, now))
      ensures outcome == Opened <==> old(CanOpenMenu(playerId, now)) && opensWithoutError
      ensures outcome == Opened ==> lastMenuOpen == old(lastMenuOpen)[playerId := now]
      ensures outcome != Opened ==> lastMenuOpen == old(lastMenuOpen)
      ensures outcome == Opened ==> !CanOpenMenu(playerId, now) && RemainingCooldown(playerId, now) == MENU_COOLDOWN
    {
      if !CanOpenMenu(playerId, now) {
        return OnCooldown;
      }
      if !opensWithoutError {
        return Failed;
      }
      lastMenuOpen := lastMenuOpen[playerId := now];
      return Opened;
    }

    /** `clearCooldowns`: only that player's record goes. */
    method ClearCooldowns(playerId: Uuid)
      modifies this`lastMenuOpen
      ensures lastMenuOpen == old(lastMenuOpen) - {playerId}
      ensures forall now :: CanOpenMenu(playerId, now) && RemainingCooldown(playerId, now) == 0
    {
      lastMenuOpen := lastMenuOpen - {playerId};
    }

    /** `clearAllCooldowns`. */
    method ClearAllCooldowns()
      modifies this`lastMenuOpen
      ensures lastMenuOpen == map[]
    {
      lastMenuOpen := map[];
    }

    /** The two queries agree: time left means the menu stays closed, and a
        menu that may open has no time left. Exactly at the cooldown's end
        the menu is still closed although no time is reported left. */
    lemma CooldownAgreement(playerId: Uuid, now: int)
      ensures RemainingCooldown(playerId, now) > 0 ==> !CanOpenMenu(playerId, now)
      ensures CanOpenMenu(playerId, now) ==> RemainingCooldown(playerId, now) == 0
      ensures !CanOpenMenu(playerId, now) && RemainingCooldown(playerId, now) == 0 <==>
        playerId in lastMenuOpen && now - lastMenuOpen[playerId] == MENU_COOLDOWN
    {
    }

    /** Once the menu may open, it may open at every later moment too, and
        time left only shrinks. */
    lemma CooldownMonotone(playerId: Uuid, t1: int, t2: int)
      requires t1 <= t2
      ensures CanOpenMenu(playerId, t1) ==> CanOpenMenu(playerId, t2)
      ensures RemainingCooldown(playerId, t2) <= RemainingCooldown(playerId, t1)
    {
    }
  }
}
