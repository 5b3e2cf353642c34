/** The role controls' state, which clicks and server messages change in place. */
module RoleControls {
  import opened Common
  import opened GameRules
  import R = RoleChange

  class Controls {
    var playerTeam: Option<Team>
    var spymasterTeam: Option<Team>
    var clickerTeam: Option<Team>
    var roleChange: R.Change
    var absoluteTimeout: Option<R.Timer>
    var nextOperation: nat

    ghost function Value(): R.State
      reads this
    {
      R.State(R.Seat(playerTeam, spymasterTeam, clickerTeam), roleChange, absoluteTimeout, nextOperation)
    }

    constructor ()
      ensures Value() == R.START
    {
      playerTeam, spymasterTeam, clickerTeam := None, None, None;
      roleChange, absoluteTimeout, nextOperation := R.Idle, None, 0;
    }

    method StartAbsoluteTimeout(op: nat, at: int)
      modifies this`absoluteTimeout
      ensures absoluteTimeout == Some(R.Timer(op, at + R.ROLE_CHANGE_ABSOLUTE_TIMEOUT_MS))
    {
      ClearAbsoluteTimeout();
      absoluteTimeout := Some(R.Timer(op, at + R.ROLE_CHANGE_ABSOLUTE_TIMEOUT_MS));
    }

    method ClearAbsoluteTimeout()
      modifies this`absoluteTimeout
      ensures absoluteTimeout == None
    {
      absoluteTimeout := None;
    }

    /** The runtime fires a timer once it is due. */
    method OnAbsoluteTimeout(at: int)
      modifies this
      ensures Value() == R.Step(old(Value()), R.TimerFires(at))
    {
      if absoluteTimeout.Some? && absoluteTimeout.value.due <= at {
        absoluteTimeout := None;
        if roleChange.InFlight? {
          ClearRoleChange();
        }
      }
    }

    method ClearRoleChange()
      modifies this`roleChange, this`absoluteTimeout
      ensures Value() == R.Cleared(old(Value()))
    {
      ClearAbsoluteTimeout();
      roleChange := R.Idle;
    }

    method RevertAndClearRoleChange()
      modifies this
      ensures Value() == R.Reverted(old(Value()))
    {
      if roleChange.InFlight? {
        playerTeam := roleChange.prior.playerTeam;
        spymasterTeam := roleChange.prior.spymasterTeam;
        clickerTeam := roleChange.prior.clickerTeam;
      }
      roleChange := R.Idle;
    }

    method SetTeam(team: Option<Team>, link: R.Link, at: int)
      modifies this
      ensures Value() == R.Step(old(Value()), R.ClickTeam(team, link, at))
    {
      if link == R.InRoom {
        if roleChange.InFlight? {
          return;
        }
        var operationId := nextOperation;
        nextOperation := nextOperation + 1;
        StartAbsoluteTimeout(operationId, at);
        var prior := R.Seat(playerTeam, spymasterTeam, clickerTeam);
        ShowTeam(team);
        roleChange := R.InFlight(R.ChangingTeam, operationId, prior, at);
      } else if link == R.Standalone {
        ShowTeam(team);
      }
    }

    method ShowTeam(team: Option<Team>)
      modifies this`playerTeam, this`spymasterTeam, this`clickerTeam
      ensures Value().seat == R.OnTeam(old(Value()).seat, team)
    {
      if playerTeam != team {
        spymasterTeam := None;
        clickerTeam := None;
      }
      playerTeam := team;
    }

    method SetRoleForTeam(role: R.Role, team: Team, link: R.Link, at: int)
      requires role != R.OtherRole
      modifies this
      ensures Value() == R.Step(old(Value()), R.ClickRole(role, team, link, at))
    {
      if link == R.InRoom {
        if roleChange.InFlight? {
          return;
        }
        var operationId := nextOperation;
        nextOperation := nextOperation + 1;
        StartAbsoluteTimeout(operationId, at);
        var prior := R.Seat(playerTeam, spymasterTeam, clickerTeam);
        ShowRole(role, team);
        roleChange := R.InFlight(R.ChangingRole, operationId, prior, at);
      } else if link == R.Standalone {
        ShowRole(role, team);
      }
    }

    method ShowRole(role: R.Role, team: Team)
      requires role != R.OtherRole
      modifies this`playerTeam, this`spymasterTeam, this`clickerTeam
      ensures Value().seat == R.OnRole(old(Value()).seat, role, team)
    {
      if role == R.Spymaster {
        if spymasterTeam == Some(team) {
          spymasterTeam := None;
        } else {
          playerTeam := Some(team);
          spymasterTeam := Some(team);
          clickerTeam := None;
        }
      } else {
        if clickerTeam == Some(team) {
          clickerTeam := None;
        } else {
          playerTeam := Some(team);
          clickerTeam := Some(team);
          spymasterTeam := None;
        }
      }
    }

    method OnAck(op: nat, error: bool)
      modifies this
      ensures Value() == R.Step(old(Value()), R.Ack(op, error))
    {
      if error && roleChange.InFlight? && roleChange.op == op {
        RevertAndClearRoleChange();
      }
    }

    /** The server's role and team, all at once; an invalid team has become none. */
    method SetPlayerRole(role: R.Role, team: Option<Team>)
      modifies this`playerTeam, this`spymasterTeam, this`clickerTeam
      ensures Value() == old(Value()).(seat := R.Synced(role, team))
    {
      playerTeam := team;
      if role == R.Spymaster && team.Some? {
        spymasterTeam := team;
        clickerTeam := None;
      } else if role == R.Clicker && team.Some? {
        clickerTeam := team;
        spymasterTeam := None;
      } else {
        spymasterTeam := None;
        clickerTeam := None;
      }
    }

    method OnPlayerUpdated(role: R.Role, team: Option<Team>, roleChanged: bool, teamChanged: bool)
      modifies this
      ensures Value() == R.Step(old(Value()), R.PlayerUpdated(role, team, roleChanged, teamChanged))
    {
      var isConfirmingUpdate :=
        roleChange.InFlight?
        && ((roleChange.kind == R.ChangingTeam && teamChanged)
            || (roleChange.kind == R.ChangingRole && (roleChanged || teamChanged)));
      if roleChange.Idle? || isConfirmingUpdate {
        SetPlayerRole(role, team);
      }
      if isConfirmingUpdate || roleChange.Idle? {
        ClearRoleChange();
      }
    }

    /** Leaving multiplayer: `clearPlayerRole`, then `clearRoleChange`. */
    method ResetMultiplayerState()
      modifies this
      ensures Value() == R.Step(old(Value()), R.Reset)
    {
      playerTeam, spymasterTeam, clickerTeam := None, None, None;
      ClearRoleChange();
    }
  }
}
