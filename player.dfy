/**
 The Player record: a name and three counters (spins, score, strikes) that its setters
 overwrite and its getters read.
 */
module Players {

  /** Java's 32-bit `int`; the record only stores such values, it does no arithmetic on them. */
  newtype int32 = x: int | -0x8000_0000 <= x < 0x8000_0000

  class Player {
    var name: string
    var numOfSpins: int32
    var score: int32
    var strikes: int32

    /** Stores exactly the four given values. */
    constructor (setName: string, setSpins: int32, setScore: int32, setStrikes: int32)
      ensures name == setName && numOfSpins == setSpins && score == setScore && strikes == setStrikes
    {
      name := setName;
      numOfSpins := setSpins;
      score := setScore;
      strikes := setStrikes;
    }

    /** A player with the given name and every counter at zero. */
    constructor Named(setName: string)
      ensures name == setName && numOfSpins == 0 && score == 0 && strikes == 0
    {
      name := setName;
      numOfSpins := 0;
      score := 0;
      strikes := 0;
    }

    /** A new player holding the same four values as `p`. */
    constructor Copy(p: Player)
      ensures name == p.name && numOfSpins == p.numOfSpins && score == p.score && strikes == p.strikes
    {
      name := p.name;
      numOfSpins := p.numOfSpins;
      score := p.score;
      strikes := p.strikes;
    }

    // Each getter reads its field through a throwaway copy of the player; none may modify it.

    method GetName() returns (r: string)
      ensures r == name
    {
      var getterPlayer := new Player(name, numOfSpins, score, strikes);
      r := getterPlayer.name;
    }

    method GetSpins() returns (r: int32)
      ensures r == numOfSpins
    {
      var getterPlayer := new Player(name, numOfSpins, score, strikes);
      r := getterPlayer.numOfSpins;
    }

    method GetScore() returns (r: int32)
      ensures r == score
    {
      var getterPlayer := new Player(name, numOfSpins, score, strikes);
      r := getterPlayer.score;
    }

    method GetStrikes() returns (r: int32)
      ensures r == strikes
    {
      var getterPlayer := new Player(name, numOfSpins, score, strikes);
      r := getterPlayer.strikes;
    }

    // Each setter overwrites its own field and leaves the other three as they were.

    method SetName(newName: string)
      modifies this
      ensures name == newName
      ensures numOfSpins == old(numOfSpins) && score == old(score) && strikes == old(strikes)
    {
      name := newName;
    }

    method SetSpins(newSpins: int32)
      modifies this
      ensures numOfSpins == newSpins
      ensures name == old(name) && score == old(score) && strikes == old(strikes)
    {
      numOfSpins := newSpins;
    }

    method SetScore(newScore: int32)
      modifies this
      ensures score == newScore
      ensures name == old(name) && numOfSpins == old(numOfSpins) && strikes == old(strikes)
    {
      score := newScore;
    }

    method SetStrikes(newStrikes: int32)
      modifies this
      ensures strikes == newStrikes
      ensures name == old(name) && numOfSpins == old(numOfSpins) && score == old(score)
    {
      strikes := newStrikes;
    }
  }

  /** Reading the score back after setting it gives the value set, and nothing else changes. */
  method ScoreReadsBack(p: Player, v: int32) returns (r: int32)
    modifies p
    ensures r == v
    ensures p.name == old(p.name) && p.numOfSpins == old(p.numOfSpins) && p.strikes == old(p.strikes)
  {
    p.SetScore(v);
    r := p.GetScore();
  }

  /** A copy is a different object: setting the copy's score leaves the original's alone. */
  method CopyIsIndependent(p: Player, v: int32) returns (q: Player)
    ensures fresh(q) && q.score == v
    ensures q.name == p.name && q.numOfSpins == p.numOfSpins && q.strikes == p.strikes
    ensures p.score == old(p.score)
  {
    q := new Player.Copy(p);
    q.SetScore(v);
  }
}
