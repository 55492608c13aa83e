/** The weekly mood: the day of the week decides the personality. The clock is a
    parameter. */
module MoodSystem {
  import opened Personality

  /** `getCurrentMood` for `Date.prototype.getDay()` returning `day`: Sunday (0) is
      wholesome, Monday sassy, Tuesday bored, Wednesday bruh, Thursday bro, Friday party,
      Saturday chill, and any other value chill as well. */
  function GetCurrentMood(day: int): (m: Mood)
    ensures !(0 <= day <= 6) ==> m == Chill
  {
    match day
    case 0 => Wholesome
    case 1 => Sassy
    case 2 => Bored
    case 3 => Bruh
    case 4 => Bro
    case 5 => Party
    case 6 => Chill
    case _ => Chill
  }

  /** The day of the week each mood belongs to. */
  function DayOf(m: Mood): (day: int)
    ensures 0 <= day <= 6
  {
    match m
    case Wholesome => 0
    case Sassy => 1
    case Bored => 2
    case Bruh => 3
    case Bro => 4
    case Party => 5
    case Chill => 6
  }

  /** Every mood has its day. */
  lemma EveryMoodHasADay(m: Mood)
    ensures GetCurrentMood(DayOf(m)) == m
  {
  }

  /** Every day of the week has its own mood: the week and the moods are in one-to-one
      correspondence. */
  lemma EachDayItsOwnMood(day: int)
    requires 0 <= day <= 6
    ensures DayOf(GetCurrentMood(day)) == day
  {
  }
}
