/**
 * `SEnvir`: the engine's shared collections that the admin pages look up
 * and change. Every page command takes the world and says, through its
 * `modifies` clause, which collections it may replace.
 */
module Envir {
  import opened Records

  class World {
    /** `AccountInfoList.Binding`. */
    var accounts: seq<Account>
    /** `ItemInfoList.Binding`. */
    var itemInfos: seq<ItemInfo>
    /** `MonsterInfoList.Binding`. */
    var monsterInfos: seq<MonsterInfo>
    /** `MagicInfoList.Binding`. */
    var magicInfos: seq<MagicInfo>
    /** `MapInfoList.Binding`. */
    var mapInfos: seq<MapInfo>
    /** `SEnvir.Maps`: the running maps, each with its definition. */
    var maps: seq<LiveMap>
    /** `SEnvir.Players`: the players online. */
    var players: seq<Player>
  }
}
