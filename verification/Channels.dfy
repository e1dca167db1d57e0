/** The application channels the model tells apart. */
module Channels {
  const AUTH_IDENTITY := 0
  const META_DATA := 1
  const PLAYER_AVATAR_VERY_LOW := 6
  const PLAYER_AVATAR_HIGH := 12
  const PLAYER_AVATAR_HIGH_ADDITIONAL := 13
  const NET_ID_ASSIGN := 22
  const NET_ID_ASSIGNS := 23
  const SCENE := 24
  const DELTA_AVATAR := 30
  const STORAGE := 32
  const PLAYER_AVATAR_VERY_LOW_LARGE := 41
  const PLAYER_AVATAR_HIGH_ADDITIONAL_LARGE := 48
  const DIRECT_SCENE_SERVER := 57
}
